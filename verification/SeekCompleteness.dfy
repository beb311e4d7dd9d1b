/** Exact seeks inside the cache: as long as the track selection stays, a range whose window contains
    the target has a keyframe at or before it in every stream, unless pruning took the start of the
    range's window without knowing where the next keyframe is. */
module SeekCompleteness {
  import opened Timestamps
  import opened PacketQueue
  import opened SeekIndex
  import opened CachedRanges
  import opened CacheRuns
  import RangeJoin
  import Pruning

  /** No timestamp in the queue is below the missing one. */
  predicate Dated(q: Queue) {
    Timed(q) && forall i :: 0 <= i < |q.packets| ==> q.packets[i].kfSeekPts >= NOPTS
  }

  /** What is still due for pruning holds no seek point, and cannot come to hold one. */
  predicate Spared(q: Queue) {
    q.nextPrune.At? ==>
      && (forall i :: 0 <= i < |q.packets| && q.base + i <= q.nextPrune.num ==> !SeekPoint(q.packets[i]))
      && (q.keyframeLatest.At? ==> q.nextPrune.num < q.keyframeLatest.num)
  }

  ghost predicate Sound(x: Range, ss: seq<Stream>) {
    |x.queues| == |ss| && QueuesOk(x.queues) && forall n :: 0 <= n < |ss| ==> Dated(x.queues[n])
  }

  /** The range's window follows from its queues', and these say what is in the queues. */
  ghost predicate UpToDate(x: Range, ss: seq<Stream>)
    requires |x.queues| == |ss|
  {
    && Window(x.seekStart, x.seekEnd) == SeekWindow(x.queues, ss)
    && forall n :: 0 <= n < |ss| && Restricts(ss[n]) ==> Honest(x.queues[n]) && Spared(x.queues[n])
  }

  /** The range is up to date if it is the watched one, `w`; of the others' windows nothing is known. */
  ghost predicate Whole(x: Range, ss: seq<Stream>, w: nat) {
    Sound(x, ss) && (x.id == w ==> UpToDate(x, ss))
  }

  ghost predicate AllWhole(rs: seq<Range>, ss: seq<Stream>, w: nat) {
    forall r :: 0 <= r < |rs| ==> Whole(rs[r], ss, w)
  }

  predicate LandsAtOrBefore(q: Queue, l: Link, pts: real) {
    l.At? && KeyframeUpTo(q, l.num, pts)
  }

  lemma SoundIsTimed(x: Range, ss: seq<Stream>)
    requires Sound(x, ss)
    ensures |x.queues| == |ss| && AllTimed(x.queues) && QueuesOk(x.queues)
  {
    hide QueueOk;
    assert forall n :: 0 <= n < |ss| ==> Dated(x.queues[n]);
  }

  /** A queue that bounds a range's window has one itself. */
  lemma WindowNeedsQueues(x: Range, ss: seq<Stream>, n: nat)
    requires Sound(x, ss) && UpToDate(x, ss) && x.seekStart != NOPTS && n < |ss| && Restricts(ss[n])
    ensures x.queues[n].seekStart != NOPTS && x.queues[n].seekStart < x.queues[n].seekEnd
  {
    SoundIsTimed(x, ss);
    WindowIsIntersection(x.queues, ss, NOPTS, NOPTS + 1.0);
    assert !Empty(x.queues[n]);
    assert Honest(x.queues[n]);
  }

  lemma CoveredQueue(x: Range, ss: seq<Stream>, pts: real, n: nat)
    requires Sound(x, ss) && UpToDate(x, ss) && Covers(x, pts) && n < |ss| && Restricts(ss[n])
    ensures x.queues[n].seekStart <= pts
  {
    SoundIsTimed(x, ss);
    WindowIsIntersection(x.queues, ss, NOPTS, NOPTS + 1.0);
    WindowIsIntersection(x.queues, ss, pts, pts + 1.0);
  }

  /** Every stream that bounds the window has a keyframe at or before every target in it, and
      finds it. */
  lemma WholeWindowIsSeekable(x: Range, ss: seq<Stream>, pts: real, n: nat)
    requires Whole(x, ss, x.id) && Covers(x, pts) && n < |ss| && Restricts(ss[n])
    ensures LandsAtOrBefore(x.queues[n], SeekTarget(x.queues[n], pts, false), pts)
  {
    WindowNeedsQueues(x, ss, n);
    CoveredQueue(x, ss, pts, n);
    HonestWindowIsSeekable(x.queues[n], pts);
  }

  // ---------- what keeps ranges whole ----------

  predicate SameSelection(ss: seq<Stream>, ts: seq<Stream>) {
    |ss| == |ts| && forall n :: 0 <= n < |ss| ==> ss[n].selected == ts[n].selected && ss[n].eager == ts[n].eager
  }

  lemma WholeFor(rs: seq<Range>, ss: seq<Stream>, ts: seq<Stream>, w: nat)
    requires AllWhole(rs, ss, w) && SameSelection(ss, ts)
    ensures AllWhole(rs, ts, w)
  {
    hide QueueOk, Honest, Dated, Spared;
    forall r | 0 <= r < |rs| ensures Whole(rs[r], ts, w) {
      SameWindow(rs[r].queues, ss, ts);
    }
  }

  /** A range without packets is whole, whatever is selected. */
  predicate Blank(x: Range) {
    && x.seekStart == NOPTS && x.seekEnd == NOPTS
    && forall n :: 0 <= n < |x.queues| ==> x.queues[n] == Cleared(x.queues[n])
  }

  lemma BlankIsWhole(x: Range, ss: seq<Stream>, w: nat)
    requires Blank(x) && |x.queues| == |ss|
    ensures Whole(x, ss, w)
  {
    ClearedWindow(x.queues, ss);
  }

  // ---------- single queues ----------

  lemma AppendedDated(q: Queue, m: Media, video: bool)
    requires Dated(q)
    ensures Dated(Appended(q, m, video))
  {
  }

  lemma AppendedSpared(q: Queue, m: Media, video: bool)
    requires QueueOk(q) && Spared(q)
    ensures Spared(Appended(q, m, video))
  {
  }

  lemma AdjustedDated(q: Queue, l: Link)
    requires Dated(q) && Readable(q) && q.HoldsLink(l) && (l.At? ==> TimedMedia(q.Get(l.num).media))
    ensures Dated(Adjusted(q, l))
  {
  }

  lemma AdjustedSpared(q: Queue, l: Link)
    requires QueueOk(q) && Spared(q) && Readable(q) && JustAdded(q, l)
    requires l.At? && q.Get(l.num).media.keyframe && q.nextPrune.At? ==> q.nextPrune.num < l.num
    ensures Spared(Adjusted(q, l))
  {
  }

  /** A packet just appended is not due for pruning. */
  lemma TailIsSpared(q: Queue, m: Media, video: bool)
    requires QueueOk(q)
    ensures var a := Appended(q, m, video);
      a.nextPrune.At? ==> a.Tail().At? && a.nextPrune.num < a.Tail().num
  {
  }

  lemma DropDated(q: Queue, k: nat)
    requires Dated(q) && k <= |q.packets|
    ensures Dated(Drop(q, k))
  {
  }

  /** Packets that are no seek points can go from the head. */
  lemma DropHonest(q: Queue, k: nat)
    requires Honest(q) && k <= |q.packets| && forall i :: 0 <= i < k ==> !SeekPoint(q.packets[i])
    ensures Honest(Drop(q, k))
  {
    if q.seekStart != NOPTS {
      var i :| FirstSeekPoint(q.packets, i) && q.packets[i].kfSeekPts == q.seekStart;
      assert FirstSeekPoint(q.packets[k..], i - k);
    }
  }

  lemma DropSpared(q: Queue, k: nat)
    requires Spared(q) && k <= |q.packets|
    ensures Spared(Drop(q, k))
  {
  }

  lemma LeftBehindKeeps(q: Queue)
    requires QueueOk(q) && Dated(q)
    ensures QueueOk(LeftBehind(q)) && Dated(LeftBehind(q))
    ensures Honest(q) && Spared(q) ==> Honest(LeftBehind(q)) && Spared(LeftBehind(q))
    ensures var r := LeftBehind(q);
      r.seekStart == q.seekStart && r.seekEnd == q.seekEnd && r.lastPruned == q.lastPruned
  {
    if q.nextPrune.At? && q.Holds(q.nextPrune.num) {
      var k := q.nextPrune.num - q.base + 1;
      DropOk(q, k);
      DropDated(q, k);
      if Honest(q) && Spared(q) {
        DropHonest(q, k);
        DropSpared(q, k);
      }
    }
  }

  // ---------- whole ranges ----------

  lemma AppendedWhole(x: Range, ss: seq<Stream>, w: nat, n: nat, m: Media, video: bool)
    requires Whole(x, ss, w) && n < |ss|
    ensures Whole(AppendedRange(x, n, m, video), ss, w)
  {
    hide QueueOk, Honest, SeekWindow, Spared, Dated, Appended;
    var q := x.queues[n];
    AppendedOk(q, m, video);
    AppendedDated(q, m, video);
    AppendedBounds(q, m, video);
    SameBoundsWindow(x.queues, AppendedRange(x, n, m, video).queues, ss);
    if x.id == w && Restricts(ss[n]) {
      AppendedHonest(q, m, video);
      AppendedSpared(q, m, video);
    }
  }

  lemma AppendedBounds(q: Queue, m: Media, video: bool)
    ensures var a := Appended(q, m, video);
      a.seekStart == q.seekStart && a.seekEnd == q.seekEnd && a.lastPruned == q.lastPruned
  {
  }

  /** Without a block to close, accounting for a packet leaves the queue's bounds alone. */
  lemma AdjustedBounds(q: Queue, l: Link)
    requires Readable(q) && q.HoldsLink(l)
    requires !((l.Null? || q.Get(l.num).media.keyframe) && q.keyframeLatest.At?)
    ensures var a := Adjusted(q, l);
      a.seekStart == q.seekStart && a.seekEnd == q.seekEnd && a.lastPruned == q.lastPruned
  {
  }

  /** The packet to account for is dated, and lies behind what is due for pruning. */
  predicate Fresh(q: Queue, l: Link)
    requires q.HoldsLink(l)
  {
    l.At? ==> TimedMedia(q.Get(l.num).media) && (q.nextPrune.At? ==> q.nextPrune.num < l.num)
  }

  lemma AdjustedWhole(x: Range, ss: seq<Stream>, w: nat, n: nat, l: Link)
    requires Whole(x, ss, w) && n < |ss| && Readable(x.queues[n]) && JustAdded(x.queues[n], l)
    requires x.queues[n].HoldsLink(l) && Fresh(x.queues[n], l)
    ensures Whole(AdjustedRange(x, ss, n, l), ss, w)
  {
    hide Dated, SeekWindow, Honest, Adjusted, LinksOk, BlockOk, Spared;
    var q := x.queues[n];
    AdjustedOk(q, l);
    AdjustedDated(q, l);
    if x.id == w && Restricts(ss[n]) {
      AdjustedHonest(q, l);
      AdjustedSpared(q, l);
    }
    if !((l.Null? || q.Get(l.num).media.keyframe) && q.keyframeLatest.At?) {
      AdjustedBounds(q, l);
      SameBoundsWindow(x.queues, x.queues[n := Adjusted(q, l)], ss);
    }
  }

  lemma {:induction false} KeptFrom(rs: seq<Range>, n: nat, x: Range)
    requires n < |rs| && x in Kept(rs, n)
    ensures x in rs
    decreases |rs| - n
  {
    if n < |rs| - 1 && x in Kept(rs, n + 1) {
      KeptFrom(rs, n + 1, x);
    }
  }

  lemma {:induction false} TrimFrom(rs: seq<Range>, max: nat, x: Range)
    requires 1 <= max && x in Trim(rs, max)
    ensures x in rs
    decreases |rs|
  {
    if |rs| > max {
      TrimFrom(RemoveAt(rs, Shortest(rs)), max, x);
    }
  }

  /** Freeing ranges adds none. */
  lemma FreedWhole(rs: seq<Range>, ss: seq<Stream>, w: nat)
    requires rs != [] && AllWhole(rs, ss, w)
    ensures AllWhole(Freed(rs), ss, w)
  {
    hide Whole;
    var k := Freed(rs);
    forall r | 0 <= r < |k| ensures Whole(k[r], ss, w) {
      assert k[r] in k;
      TrimFrom(Kept(rs, 0), MAX_SEEK_RANGES, k[r]);
      KeptFrom(rs, 0, k[r]);
    }
  }

  lemma {:induction false} CandidateOverlaps(rs: seq<Range>, n: nat)
    requires rs != [] && n < |rs| && JoinCandidate(rs, n) >= 0
    ensures var c := JoinCandidate(rs, n); var cur := rs[|rs| - 1];
      cur.seekStart <= rs[c].seekStart < cur.seekEnd
  {
    if JoinCandidate(rs, n) != n - 1 {
      CandidateOverlaps(rs, n - 1);
    }
  }

  lemma RemainingDated(s: Stream, q1: Queue, q2: Queue)
    requires Dated(q2)
    ensures Dated(Remaining(s, q1, q2))
  {
    if q1.packets != [] {
      DropDated(q2, RangeJoin.Overlap(q2, q1.packets[|q1.packets| - 1].media, OrderOf(s), 0).keep);
    }
  }

  lemma JoinedDated(q1: Queue, q2: Queue)
    requires RangeJoin.Joinable(q1, q2) && Dated(q1) && Dated(q2)
    ensures Dated(RangeJoin.Joined(q1, q2))
  {
  }

  lemma JoinedSpared(q1: Queue, q2: Queue)
    requires RangeJoin.Joinable(q1, q2) && QueueOk(q1) && Spared(q1)
    ensures Spared(RangeJoin.Joined(q1, q2))
  {
    hide QueueOk;
    Pruning.QueueIndexOk(q1);
    var j := RangeJoin.Joined(q1, q2);
    forall i | 0 <= i < |j.packets| && q1.nextPrune.At? && j.base + i <= q1.nextPrune.num
      ensures !SeekPoint(j.packets[i])
    {
      assert j.packets[i] == q1.packets[i];
    }
  }

  /** A joined range is whole if the current one was: its windows still start where they did. */
  lemma RangeJoinedWhole(ss: seq<Stream>, x: Range, y: Range, ts: seq<Stream>, x': Range, w: nat)
    requires Whole(x, ss, w) && Whole(y, ss, w) && x.seekStart < x.seekEnd
    requires RangeJoined(ss, x, Remainings(ss, x.queues, y.queues), ts, x')
    ensures SameSelection(ss, ts) && Whole(x', ts, w)
  {
    hide Dated, SeekWindow, Honest, QueueOk, ReaderOk, Remaining, Spared;
    var rest := Remainings(ss, x.queues, y.queues);
    if x.id == w {
      HasWindow(x, ss);
    }
    forall n | 0 <= n < |ss|
      ensures ss[n].selected == ts[n].selected && ss[n].eager == ts[n].eager
      ensures QueueOk(x'.queues[n]) && Dated(x'.queues[n])
      ensures x.id == w && Restricts(ts[n]) ==> Honest(x'.queues[n]) && Spared(x'.queues[n])
    {
      var q1, q2 := x.queues[n], rest[n];
      assert StreamJoined(ss[n], x.id, q1, q2, ts[n], x'.queues[n], HandedOver(q2));
      RemainingDated(ss[n], q1, y.queues[n]);
      JoinedDated(q1, q2);
      if x.id == w && Restricts(ss[n]) {
        WindowNeedsQueues(x, ss, n);
        RangeJoin.JoinedHonest(q1, q2);
        JoinedSpared(q1, q2);
      }
    }
  }

  lemma JoinWhole(ss: seq<Stream>, rs: seq<Range>, p: PendingSeek, ts: seq<Stream>, rs': seq<Range>, p': PendingSeek,
                  w: nat)
    requires JoinOutcome(ss, rs, p, ts, rs', p') && AllWhole(rs, ss, w)
    ensures SameSelection(ss, ts) && AllWhole(rs', ts, w)
  {
    hide Whole, AllCanJoin, RangeJoined, Remainings, Freed, JoinCandidate, WithWindow, SeekWindow;
    var last, c := |rs| - 1, JoinCandidate(rs, |rs| - 1);
    if c != -1 {
      if !AllCanJoin(ss, rs[last].queues, rs[c].queues) {
        FreedWhole(RemoveAt(rs, c), ss, w);
      } else {
        CandidateOverlaps(rs, last);
        var x := rs'[|rs'| - 1];
        RangeJoinedWhole(ss, rs[last], rs[c], ts, x, w);
        WholeFor(rs, ss, ts, w);
        FreedWhole(Remade(rs, c, x), ts, w);
      }
    }
  }

  lemma HasWindow(x: Range, ss: seq<Stream>)
    requires Sound(x, ss) && UpToDate(x, ss) && x.seekStart < x.seekEnd
    ensures x.seekStart != NOPTS
  {
    SoundIsTimed(x, ss);
    WindowIsIntersection(x.queues, ss, NOPTS, NOPTS + 1.0);
  }

  lemma ReplacedWhole(rs: seq<Range>, r: nat, y: Range, ss: seq<Stream>, w: nat)
    requires AllWhole(rs, ss, w) && r < |rs| && Whole(y, ss, w)
    ensures AllWhole(rs[r := y], ss, w)
  {
    hide Whole;
  }

  lemma AdjustWhole(ss: seq<Stream>, rs: seq<Range>, p: PendingSeek, n: nat, l: Link,
                    ts: seq<Stream>, rs': seq<Range>, p': PendingSeek, w: nat)
    requires AdjustOutcome(ss, rs, p, n, l, ts, rs', p') && AllWhole(rs, ss, w)
    requires JustAdded(rs[|rs| - 1].queues[n], l) && Fresh(rs[|rs| - 1].queues[n], l)
    ensures SameSelection(ss, ts) && AllWhole(rs', ts, w)
  {
    hide Whole, JoinOutcome, AdjustedRange, Fresh, JustAdded;
    var x := rs[|rs| - 1];
    var y := AdjustedRange(x, ss, n, l);
    AdjustedWhole(x, ss, w, n, l);
    ReplacedWhole(rs, |rs| - 1, y, ss, w);
    if y.seekEnd > x.seekEnd {
      JoinWhole(ss, rs[|rs| - 1 := y], p, ts, rs', p', w);
    }
  }

  lemma AddWhole(ss: seq<Stream>, rs: seq<Range>, p: PendingSeek, seekable: bool, n: nat, m: Media,
                 ts: seq<Stream>, rs': seq<Range>, p': PendingSeek, w: nat)
    requires AddOutcome(ss, rs, p, seekable, n, m, ts, rs', p') && AllWhole(rs, ss, w) && TimedMedia(m)
    ensures SameSelection(ss, ts) && AllWhole(rs', ts, w)
  {
    hide AdjustOutcome, Whole, Appended, QueueOk;
    var x := rs[|rs| - 1];
    if m.len == 0 || !ss[n].selected || p.queued {
    } else if ss[n].refreshing {
      WholeFor(rs, ss, ts, w);
    } else {
      var video := ss[n].kind == Video;
      var a := AppendedRange(x, n, m, video);
      var mid := AddedStreams(ss, x, n, m);
      LastQueueOk(rs, ss, n, w);
      Pruning.QueueIndexOk(x.queues[n]);
      AppendedIsNext(x.queues[n], m, video);
      AppendedWhole(x, ss, w, n, m, video);
      ReplacedWhole(rs, |rs| - 1, a, ss, w);
      WholeFor(rs[|rs| - 1 := a], ss, mid, w);
      if seekable {
        AppendedIsFresh(x.queues[n], m, video);
        AdjustWhole(mid, rs[|rs| - 1 := a], p, n, a.queues[n].Tail(), ts, rs', p', w);
      }
    }
  }

  lemma AppendedIsFresh(q: Queue, m: Media, video: bool)
    requires QueueOk(q) && TimedMedia(m)
    ensures var a := Appended(q, m, video); Fresh(a, a.Tail())
  {
    TailIsSpared(q, m, video);
  }

  lemma LastQueueOk(rs: seq<Range>, ss: seq<Stream>, n: nat, w: nat)
    requires rs != [] && AllWhole(rs, ss, w) && n < |ss|
    ensures n < |rs[|rs| - 1].queues| && QueueOk(rs[|rs| - 1].queues[n])
  {
    hide QueueOk;
    assert Whole(rs[|rs| - 1], ss, w);
  }

  lemma BackgroundedWhole(x: Range, ss: seq<Stream>, y: Range, w: nat)
    requires Whole(x, ss, w) && Backgrounded(x, ss, y)
    ensures Whole(y, ss, w)
  {
    hide Dated, SeekWindow, QueueOk, Honest, Spared, LeftBehind, Cleared;
    if Resumable(ss) {
      forall n | 0 <= n < |ss|
        ensures var q, r := x.queues[n], y.queues[n];
          && QueueOk(r) && Dated(r) && (Honest(q) && Spared(q) ==> Honest(r) && Spared(r))
          && r.seekStart == q.seekStart && r.seekEnd == q.seekEnd && r.lastPruned == q.lastPruned
      {
        LeftBehindKeeps(x.queues[n]);
      }
      SameBoundsWindow(x.queues, y.queues, ss);
    } else {
      forall n | 0 <= n < |ss| ensures y.queues[n] == Cleared(y.queues[n]) {
        ClearedTwice(LeftBehind(x.queues[n]));
      }
      BlankIsWhole(y, ss, w);
    }
  }

  lemma ClearedTwice(q: Queue)
    ensures Cleared(Cleared(q)) == Cleared(q)
  {
  }

  lemma SwitchWhole(m: seq<Range>, ss: seq<Stream>, rs': seq<Range>, y: Range, w: nat)
    requires |m| >= 2 && AllWhole(m, ss, w) && SwitchedAway(m, ss, rs', y)
    ensures AllWhole(rs', ss, w)
  {
    hide Whole, Backgrounded, Freed;
    BackgroundedWhole(m[|m| - 2], ss, y, w);
    ReplacedWhole(m, |m| - 2, y, ss, w);
    FreedWhole(m[|m| - 2 := y], ss, w);
  }

  lemma SeekWhole(ss: seq<Stream>, rs: seq<Range>, cur: nat, p: PendingSeek, pts: real, flags: SeekFlags, r: nat,
                  ts: seq<Stream>, rs': seq<Range>, cur': nat, p': PendingSeek, w: nat)
    requires SeekOutcome(ss, rs, cur, p, pts, flags, r, ts, rs', cur', p') && AllWhole(rs, ss, w)
    ensures SameSelection(ss, ts) && AllWhole(rs', ts, w)
  {
    hide Whole, QueuesOk, SwitchedAway, SeekTo, SeekTarget;
    var sought := SeekedAll(ss, rs[r], SeekTo(rs[r], ss, 0, pts, flags));
    WholeFor(rs, ss, sought, w);
    if rs[r].id != cur {
      var m := MovedToEnd(rs, r);
      var y :| SwitchedAway(m, sought, rs', y);
      SwitchWhole(m, sought, rs', y, w);
      WholeFor(rs', sought, ts, w);
    }
  }

  lemma CountOf(x: Range, ss: seq<Stream>, w: nat)
    requires Whole(x, ss, w)
    ensures |x.queues| == |ss|
  {
  }

  lemma FreshWhole(ss: seq<Stream>, rs: seq<Range>, seekable: bool, id: nat, ts: seq<Stream>, rs': seq<Range>, w: nat)
    requires FreshOutcome(ss, rs, seekable, id, ts, rs') && AllWhole(rs, ss, w)
    ensures SameSelection(ss, ts) && AllWhole(rs', ts, w)
  {
    hide Whole, SwitchedAway, QueueOk;
    if seekable {
      var m := rs + [EmptyRange(id, |ss|)];
      var y :| SwitchedAway(m, ss, rs', y);
      BlankIsWhole(EmptyRange(id, |ss|), ss, w);
      SwitchWhole(m, ss, rs', y, w);
      WholeFor(rs', ss, ts, w);
    } else {
      CountOf(rs[|rs| - 1], ss, w);
      BlankIsWhole(ClearedRange(rs[|rs| - 1]), ss, w);
      ReplacedWhole(rs, |rs| - 1, ClearedRange(rs[|rs| - 1]), ss, w);
    }
  }

  // ---------- pruning ----------

  lemma {:induction false} PruneCountBound(s: Stream, id: nat, q: Queue, k: nat)
    requires k <= |q.packets| && q.nextPrune.At? && q.base + k <= q.nextPrune.num
    ensures q.base + Pruning.PruneCount(s, id, q, k) <= q.nextPrune.num + 1
    decreases |q.packets| - k
  {
    if k < |q.packets| && s.reader != PacketAt(id, q.base + k) && q.nextPrune != At(q.base + k) {
      PruneCountBound(s, id, q, k + 1);
    }
  }

  lemma PreparedDated(q: Queue)
    requires Dated(q) && q.packets != []
    ensures Dated(Pruning.Prepared(q))
  {
  }

  /** A queue in which a seek point follows the head: once prepared and rid of its head, it starts
      with a seek point at or behind the prune target. */
  lemma PreparedSpared(q: Queue, c: nat)
    requires QueueOk(q) && q.packets != [] && Pruning.NextSeekPoint(q.packets, 1) < |q.packets|
    requires 1 <= c <= Pruning.NextSeekPoint(q.packets, 1)
    ensures Honest(Drop(Pruning.Prepared(q), c)) && Spared(Drop(Pruning.Prepared(q), c))
  {
    var k := Pruning.NextSeekPoint(q.packets, 1);
    assert FirstSeekPoint(q.packets[c..], k - c);
  }

  predicate KnowsNext(q: Queue) {
    q.nextPrune.Null? && q.packets != [] ==> Pruning.NextSeekPoint(q.packets, 1) < |q.packets|
  }

  lemma PrunedVictimKeeps(s: Stream, id: nat, q: Queue)
    requires QueueOk(q) && Dated(q) && Pruning.Prunable(s, id, q)
    ensures QueueOk(Pruning.PrunedVictim(s, id, q, true)) && Dated(Pruning.PrunedVictim(s, id, q, true))
    ensures Honest(q) && Spared(q) && KnowsNext(q) ==>
      Honest(Pruning.PrunedVictim(s, id, q, true)) && Spared(Pruning.PrunedVictim(s, id, q, true))
    ensures q.nextPrune.At? ==>
      var r := Pruning.PrunedVictim(s, id, q, true);
      r.seekStart == q.seekStart && r.seekEnd == q.seekEnd && r.lastPruned == q.lastPruned
  {
    hide QueueOk, Pruning.Prepared, Honest, Spared, Dated;
    var p := if q.nextPrune.Null? then Pruning.Prepared(q) else q;
    Pruning.PreparedOk(q);
    PreparedDated(q);
    PreparedTarget(q);
    var c := Pruning.PruneCount(s, id, p, 0);
    DropOk(p, c);
    DropDated(p, c);
    Pruning.PruneRemovesSome(s, id, p);
    Pruning.QueueIndexOk(q);
    PruneCountBound(s, id, p, 0);
    if Honest(q) && Spared(q) && KnowsNext(q) {
      if q.nextPrune.Null? {
        PreparedSpared(q, c);
      } else {
        SparedHead(q, c);
        DropHonest(q, c);
        DropSpared(q, c);
      }
    }
  }

  lemma PreparedTarget(q: Queue)
    requires q.packets != []
    ensures var p := Pruning.Prepared(q);
      && p.packets == q.packets && p.base == q.base
      && p.nextPrune == At(q.base + Pruning.NextSeekPoint(q.packets, 1) - 1)
  {
  }

  lemma SparedHead(q: Queue, c: nat)
    requires Spared(q) && q.nextPrune.At? && c <= |q.packets| && q.base + c <= q.nextPrune.num + 1
    ensures forall i :: 0 <= i < c ==> !SeekPoint(q.packets[i])
  {
  }

  /** Pruning a range that matters is harmless if the victim's next keyframe is known. */
  lemma VictimWhole(rs: seq<Range>, ss: seq<Stream>, v: nat, w: nat)
    requires rs != [] && Whole(rs[0], ss, w) && v < |ss| && Pruning.Prunable(ss[v], rs[0].id, rs[0].queues[v])
    requires rs[0].id == w && Restricts(ss[v]) ==> KnowsNext(rs[0].queues[v])
    ensures Whole(Pruning.VictimPruned(rs, ss, true, v), ss, w)
  {
    hide Dated, SeekWindow, QueueOk, Honest, Spared, Pruning.PrunedVictim, KnowsNext;
    var x := rs[0];
    var q := x.queues[v];
    PrunedVictimKeeps(ss[v], x.id, q);
    var qs := x.queues[v := Pruning.PrunedVictim(ss[v], x.id, q, true)];
    if q.nextPrune.At? {
      SameBoundsWindow(x.queues, qs, ss);
    }
  }

  lemma PruneWhole(rs: seq<Range>, ss: seq<Stream>, current: nat, v: nat, rs': seq<Range>, w: nat)
    requires rs != [] && v < |rs[0].queues| == |ss| && AllWhole(rs, ss, w)
    requires Pruning.PrunedVictimOutcome(rs, ss, true, current, v, rs')
    requires rs[0].id == w && Restricts(ss[v]) ==> KnowsNext(rs[0].queues[v])
    ensures AllWhole(rs', ss, w)
  {
    hide Whole, Freed, KnowsNext, Pruning.VictimPruned;
    VictimWhole(rs, ss, v, w);
    var y := Pruning.VictimPruned(rs, ss, true, v);
    ReplacedWhole(rs, 0, y, ss, w);
    if rs' != rs[0 := y] {
      FreedWhole(rs[0 := y], ss, w);
    }
  }

  // ---------- runs ----------

  lemma EofWhole(a: Snapshot, n: nat, seekable: bool, b: Snapshot, w: nat)
    requires EofStep(a, n, seekable, b) && AllWhole(a.ranges, a.streams, w)
    ensures SameSelection(a.streams, b.streams) && AllWhole(b.ranges, b.streams, w)
  {
    hide Whole, AdjustOutcome;
    if !a.streams[n].eof {
      var ts :| EofAdjusted(a, n, seekable, b, ts);
      if seekable {
        AdjustShape(a.streams, a.ranges, a.pending, n, ts, b.ranges, b.pending);
        AdjustWhole(a.streams, a.ranges, a.pending, n, Null, ts, b.ranges, b.pending, w);
      }
      WholeFor(b.ranges, ts, b.streams, w);
    }
  }

  lemma AdjustShape(ss: seq<Stream>, rs: seq<Range>, p: PendingSeek, n: nat,
                    ts: seq<Stream>, rs': seq<Range>, p': PendingSeek)
    requires AdjustOutcome(ss, rs, p, n, Null, ts, rs', p')
    ensures rs != [] && n < |rs[|rs| - 1].queues|
  {
  }

  /** A round of pruning that takes from a queue which bounds range `w`'s window without knowing
      where the next keyframe is. */
  ghost predicate PrunesBlindly(a: Cache, e: CacheEvent, w: nat) {
    && e.Pruned? && a.ranges != [] && a.ranges[0].id == w && e.victim < |a.ranges[0].queues| == |a.streams|
    && Restricts(a.streams[e.victim]) && !KnowsNext(a.ranges[0].queues[e.victim])
  }

  predicate ChangesSelection(e: CacheEvent) { e.SelectionChanges? || e.StreamAdded? }

  lemma HappensWhole(a: Cache, e: CacheEvent, b: Cache, w: nat)
    requires Happens(a, e, true, b) && AllWhole(a.ranges, a.streams, w)
    requires !ChangesSelection(e) && !PrunesBlindly(a, e, w)
    ensures SameSelection(a.streams, b.streams) && AllWhole(b.ranges, b.streams, w)
  {
    hide Whole, AddOutcome, EofStep, SeekOutcome, FreshOutcome, ReaderOk, Covers, KnowsNext;
    hide Pruning.PrunedVictimOutcome;
    match e {
      case PacketArrives(n, m) =>
        AddWhole(a.streams, a.ranges, a.pending, true, n, m, b.streams, b.ranges, b.pending, w);
      case InputEnds(n) =>
        EofWhole(Snapshot(a.streams, a.ranges, a.pending), n, true, Snapshot(b.streams, b.ranges, b.pending), w);
      case Pruned(_, v) =>
        PruneWhole(a.ranges, a.streams, a.current, v, b.ranges, w);
      case Flushed =>
        FlushedWhole(a.streams, a.ranges, w);
      case SeekServed(pts, flags, r) =>
        WholeFor(a.ranges, a.streams, UnreadAll(a.streams), w);
        SeekWhole(UnreadAll(a.streams), a.ranges, a.current, a.pending, pts, flags, r,
                  b.streams, b.ranges, b.current, b.pending, w);
      case SeekMissed(_, _) =>
        WholeFor(a.ranges, a.streams, UnreadAll(a.streams), w);
        FreshWhole(UnreadAll(a.streams), a.ranges, true, b.current, b.streams, b.ranges, w);
      case _ =>
        WholeFor(a.ranges, a.streams, b.streams, w);
    }
  }

  lemma FlushedWhole(ss: seq<Stream>, rs: seq<Range>, w: nat)
    requires AllWhole(rs, ss, w) && rs != []
    ensures SameSelection(ss, UnreadAll(ss)) && AllWhole([ClearedRange(rs[|rs| - 1])], UnreadAll(ss), w)
  {
    CountOf(rs[|rs| - 1], ss, w);
    BlankIsWhole(ClearedRange(rs[|rs| - 1]), UnreadAll(ss), w);
  }

  /** `trace` is a run of a seekable cache that starts without any packet, and with a selection of
      streams that stays. */
  ghost predicate PlainRun(trace: seq<Cache>, events: seq<CacheEvent>) {
    && IsRun(trace, events, true)
    && (forall r :: 0 <= r < |trace[0].ranges| ==>
          Blank(trace[0].ranges[r]) && |trace[0].ranges[r].queues| == |trace[0].streams|)
    && (forall i :: 0 <= i < |events| ==> !ChangesSelection(events[i]))
  }

  /** Range `w` was not pruned blindly in the first `i` steps: all pruning of other ranges is allowed,
      and all pruning of this one that knows the next keyframe of each queue bounding its window. */
  ghost predicate NotPrunedBlindly(trace: seq<Cache>, events: seq<CacheEvent>, i: nat, w: nat)
    requires i <= |events| < |trace|
  {
    forall k :: 0 <= k < i ==> !PrunesBlindly(trace[k], events[k], w)
  }

  lemma {:induction false} RunStaysWhole(trace: seq<Cache>, events: seq<CacheEvent>, i: nat, w: nat)
    requires PlainRun(trace, events) && i < |trace| && NotPrunedBlindly(trace, events, i, w)
    ensures AllWhole(trace[i].ranges, trace[i].streams, w)
  {
    hide Happens, Whole, Blank, PrunesBlindly;
    if i == 0 {
      forall r | 0 <= r < |trace[0].ranges| ensures Whole(trace[0].ranges[r], trace[0].streams, w) {
        BlankIsWhole(trace[0].ranges[r], trace[0].streams, w);
      }
    } else {
      RunStaysWhole(trace, events, i - 1, w);
      HappensWhole(trace[i - 1], events[i - 1], trace[i], w);
    }
  }

  /** In every run in which the range was not pruned blindly, whatever the timestamps, an exact
      backward seek that is served from it sends every selected, eagerly read stream to a
      keyframe at or before the target. */
  lemma ExactSeekIsComplete(trace: seq<Cache>, events: seq<CacheEvent>, i: nat,
                            pts: real, flags: SeekFlags, r: nat, n: nat)
    requires PlainRun(trace, events) && i < |events|
    requires events[i] == SeekServed(pts, flags, r) && flags.hr && !flags.forward
    requires r < |trace[i].ranges| && NotPrunedBlindly(trace, events, i, trace[i].ranges[r].id)
    requires n < |trace[i].streams| && Restricts(trace[i].streams[n])
    ensures n < |trace[i + 1].streams| && n < |trace[i].ranges[r].queues|
    ensures var s := trace[i + 1].streams[n];
      && s.reader.PacketAt? && s.reader.range == trace[i + 1].current == trace[i].ranges[r].id
      && LandsAtOrBefore(trace[i].ranges[r].queues[n], At(s.reader.num), pts)
  {
    hide Happens, Whole, NotPrunedBlindly, SeekTarget, LandsAtOrBefore, QueueOk;
    var a, w := trace[i], trace[i].ranges[r].id;
    RunStaysWhole(trace, events, i, w);
    CountOf(a.ranges[r], a.streams, w);
    ServedCovers(a, pts, flags, r, trace[i + 1]);
    WholeWindowIsSeekable(a.ranges[r], a.streams, pts, n);
    ServedReader(a, pts, flags, r, trace[i + 1], n);
  }

  lemma ServedCovers(a: Cache, pts: real, flags: SeekFlags, r: nat, b: Cache)
    requires Happens(a, SeekServed(pts, flags, r), true, b) && r < |a.ranges|
    ensures Covers(a.ranges[r], pts) && QueuesOk(a.ranges[r].queues) && |a.ranges[r].queues| == |a.streams|
  {
    hide QueuesOk;
  }

  /** Stream `v` is the one an inexact seek goes by. */
  predicate FirstVideo(ss: seq<Stream>, v: nat) {
    && v < |ss| && ss[v].selected && ss[v].kind == Video
    && forall i :: 0 <= i < v ==> !(ss[i].selected && ss[i].kind == Video)
  }

  predicate NoVideo(ss: seq<Stream>) {
    forall i :: 0 <= i < |ss| ==> !(ss[i].selected && ss[i].kind == Video)
  }

  function RefTo(id: nat, l: Link): Ref {
    if l.At? then PacketAt(id, l.num) else NoPacket
  }

  lemma {:induction false} SeekToPlain(x: Range, ss: seq<Stream>, n: nat, pts: real, flags: SeekFlags)
    requires n <= |x.queues| == |ss| && QueuesOk(x.queues) && (flags.hr || NoVideo(ss))
    ensures SeekTo(x, ss, n, pts, flags) == Target(pts, flags.forward)
    decreases |ss| - n
  {
    hide QueueOk;
    if n < |ss| && !flags.hr {
      SeekToPlain(x, ss, n + 1, pts, flags);
    }
  }

  /** Where an exact seek, or one that follows no video, sends the readers. */
  lemma ServedReader(a: Cache, pts: real, flags: SeekFlags, r: nat, b: Cache, n: nat)
    requires Happens(a, SeekServed(pts, flags, r), true, b) && (flags.hr || NoVideo(a.streams))
    requires r < |a.ranges| && n < |a.ranges[r].queues| == |a.streams| && QueueOk(a.ranges[r].queues[n])
    ensures n < |b.streams| && b.current == a.ranges[r].id
    ensures b.streams[n].reader == RefTo(a.ranges[r].id, SeekTarget(a.ranges[r].queues[n], pts, flags.forward))
  {
    hide QueueOk, QueuesOk, SeekTarget, Forward, SwitchedAway, SeekTo;
    SeekToPlain(a.ranges[r], UnreadAll(a.streams), 0, pts, flags);
  }

  /** Whatever happened to the cache before, the exact condition: a stream is sent to a keyframe at
      or before the target if and only if the first keyframe its queue still has, or an indexed
      one, is there. */
  lemma ExactSeekLands(a: Cache, pts: real, flags: SeekFlags, r: nat, b: Cache, n: nat)
    requires Happens(a, SeekServed(pts, flags, r), true, b) && flags.hr && !flags.forward
    requires r < |a.ranges| && n < |a.streams|
    ensures n < |a.ranges[r].queues| && n < |b.streams| && QueueOk(a.ranges[r].queues[n])
    ensures var q, reader := a.ranges[r].queues[n], b.streams[n].reader;
      reader.PacketAt? && LandsAtOrBefore(q, At(reader.num), pts) <==> StartsBy(q, pts)
  {
    hide Happens, QueueOk, SeekTarget, StartsBy, KeyframeUpTo;
    ServedCovers(a, pts, flags, r, b);
    ServedReader(a, pts, flags, r, b, n);
    BackwardLandsExactly(a.ranges[r].queues[n], pts);
  }

  lemma {:induction false} SeekToFollows(x: Range, ss: seq<Stream>, n: nat, v: nat, pts: real, flags: SeekFlags)
    requires n <= v && |x.queues| == |ss| && QueuesOk(x.queues) && FirstVideo(ss, v) && !flags.hr
    ensures var l := SeekTarget(x.queues[v], pts, flags.forward);
      SeekTo(x, ss, n, pts, flags) ==
        if l.At? then Target(x.queues[v].Get(l.num).kfSeekPts, false) else Target(pts, flags.forward)
    decreases v - n
  {
    hide QueueOk, SeekTarget;
    if n < v {
      SeekToFollows(x, ss, n + 1, v, pts, flags);
    } else if SeekTarget(x.queues[v], pts, flags.forward).At? {
      FoundAgain(x.queues[v], pts, flags.forward);
    }
  }

  /** The stream's position is the packet's timestamp. */
  predicate CountsFrom(s: Stream, m: Media) {
    s.baseTs == if m.pts != NOPTS then m.pts else m.dts
  }

  /** The reader is at the packet to resume from at `ts`, if there is one, and knows when that is. */
  ghost predicate ReadsFrom(s: Stream, id: nat, q: Queue, ts: real)
    requires QueueOk(q)
  {
    && (s.reader.PacketAt? ==>
          s.reader.range == id && q.Holds(s.reader.num) && CountsFrom(s, q.Get(s.reader.num).media))
    && (s.reader.NoPacket? <==> NoSeekPoint(q.packets)) && (s.skipToKeyframe <==> s.reader.NoPacket?)
    && (s.reader.PacketAt? && LandsAtOrBefore(q, At(s.reader.num), ts) <==> StartsBy(q, ts))
    && (StrictKeyframes(q.packets) ==>
          LastUpTo(q.packets, ts, if s.reader.PacketAt? then s.reader.num - q.base else -1))
  }

  lemma SeekedIs(s: Stream, id: nat, q: Queue, ts: real)
    requires QueueOk(q)
    ensures var t, l := Seeked(s, id, q, ts, false), SeekTarget(q, ts, false);
      && t.reader == RefTo(id, l) && (t.skipToKeyframe <==> l.Null?)
      && (l.At? ==> CountsFrom(t, q.Get(l.num).media))
  {
    hide QueueOk, SeekTarget, Forward;
  }

  lemma SentBack(s: Stream, id: nat, q: Queue, ts: real)
    requires QueueOk(q)
    ensures ReadsFrom(Seeked(s, id, q, ts, false), id, q, ts)
  {
    hide QueueOk, SeekTarget, StartsBy, LastUpTo, NoSeekPoint, StrictKeyframes, KeyframeUpTo, Seeked, CountsFrom;
    SeekedIs(s, id, q, ts);
    BackwardLandsExactly(q, ts);
    BackwardFindsSome(q, ts);
    if StrictKeyframes(q.packets) {
      BackwardTarget(q, ts);
    }
  }

  /** What becomes of a stream of the range a seek is served from. */
  lemma ServedStream(a: Cache, pts: real, flags: SeekFlags, r: nat, b: Cache, n: nat)
    requires Happens(a, SeekServed(pts, flags, r), true, b) && r < |a.ranges| && n < |a.streams|
    ensures |a.ranges[r].queues| == |a.streams| && n < |b.streams| && QueuesOk(a.ranges[r].queues)
    ensures var t := SeekTo(a.ranges[r], UnreadAll(a.streams), 0, pts, flags);
      var s := Seeked(UnreadAll(a.streams)[n], a.ranges[r].id, a.ranges[r].queues[n], t.pts, t.forward);
      && b.streams[n].reader == s.reader && b.streams[n].baseTs == s.baseTs
      && b.streams[n].skipToKeyframe == s.skipToKeyframe
  {
    hide QueueOk, QueuesOk, SeekTo, Seeked, SwitchedAway, Unread;
  }

  /** After any history, an inexact seek goes by the first selected video stream: if that has a
      target in the range, at `ts`, every stream is sent to the last keyframe at or before `ts`. So
      exactly the streams that have a keyframe by then - see `StartsBy` - are not behind the video, and
      the video itself lands on its target unless the index leads past it. If the video has no target,
      every stream goes to its own. */
  lemma {:induction false} InexactSeekFollowsVideo(a: Cache, pts: real, flags: SeekFlags, r: nat, b: Cache,
                                                   v: nat, n: nat)
    requires Happens(a, SeekServed(pts, flags, r), true, b) && !flags.hr
    requires r < |a.ranges| && FirstVideo(a.streams, v) && n < |a.streams|
    ensures |a.ranges[r].queues| == |a.streams| && n < |b.streams| && v < |b.streams|
    ensures QueueOk(a.ranges[r].queues[v]) && QueueOk(a.ranges[r].queues[n])
    ensures var x := a.ranges[r];
      var l := SeekTarget(x.queues[v], pts, flags.forward);
      if l.Null? then b.streams[n].reader == RefTo(x.id, SeekTarget(x.queues[n], pts, flags.forward))
      else
        var ts := x.queues[v].Get(l.num).kfSeekPts;
        && ReadsFrom(b.streams[n], x.id, x.queues[n], ts)
        && b.streams[v].reader.PacketAt? && KeyframeUpTo(x.queues[v], b.streams[v].reader.num, ts)
        && (b.streams[v].reader == PacketAt(x.id, l.num) <==> NoEntryBehind(x.queues[v], l.num, ts))
        && (!flags.forward && ts <= pts ==> b.streams[v].reader == PacketAt(x.id, l.num))
  {
    hide Happens, QueueOk, SeekTo, SeekTarget, NoEntryBehind, KeyframeUpTo, ReadsFrom, Forward, Unread;
    ServedStream(a, pts, flags, r, b, n);
    ServedStream(a, pts, flags, r, b, v);
    var x, ss := a.ranges[r], UnreadAll(a.streams);
    assert FirstVideo(ss, v) by { UnreadSelection(a.streams); }
    SeekToFollows(x, ss, 0, v, pts, flags);
    var l := SeekTarget(x.queues[v], pts, flags.forward);
    if l.At? {
      FoundAgain(x.queues[v], pts, flags.forward);
      var ts := x.queues[v].Get(l.num).kfSeekPts;
      SentBack(ss[n], x.id, x.queues[n], ts);
      SameReading(Seeked(ss[n], x.id, x.queues[n], ts, false), b.streams[n], x.id, x.queues[n], ts);
    }
  }

  lemma UnreadSelection(ss: seq<Stream>)
    ensures forall n :: 0 <= n < |ss| ==>
      UnreadAll(ss)[n].selected == ss[n].selected && UnreadAll(ss)[n].kind == ss[n].kind
  {
  }

  lemma SameReading(s: Stream, t: Stream, id: nat, q: Queue, ts: real)
    requires QueueOk(q) && ReadsFrom(s, id, q, ts)
    requires t.reader == s.reader && t.baseTs == s.baseTs && t.skipToKeyframe == s.skipToKeyframe
    ensures ReadsFrom(t, id, q, ts)
  {
    hide QueueOk, StartsBy, LastUpTo, NoSeekPoint, StrictKeyframes, KeyframeUpTo;
  }

  /** In a run as for exact seeks: a backward inexact seek sends an eagerly read video to a keyframe at
      or before the target, and every other stream goes by that keyframe. */
  lemma InexactSeekIsComplete(trace: seq<Cache>, events: seq<CacheEvent>, i: nat,
                              pts: real, flags: SeekFlags, r: nat, v: nat, n: nat)
    requires PlainRun(trace, events) && i < |events|
    requires events[i] == SeekServed(pts, flags, r) && !flags.hr && !flags.forward
    requires r < |trace[i].ranges| && NotPrunedBlindly(trace, events, i, trace[i].ranges[r].id)
    requires FirstVideo(trace[i].streams, v) && Restricts(trace[i].streams[v]) && n < |trace[i].streams|
    ensures v < |trace[i + 1].streams| == |trace[i].streams| == |trace[i].ranges[r].queues|
    ensures var x, reader := trace[i].ranges[r], trace[i + 1].streams[v].reader;
      && reader.PacketAt? && LandsAtOrBefore(x.queues[v], At(reader.num), pts) && QueueOk(x.queues[n])
      && ReadsFrom(trace[i + 1].streams[n], x.id, x.queues[n], x.queues[v].Get(reader.num).kfSeekPts)
  {
    hide Happens, Whole, NotPrunedBlindly, SeekTarget, QueueOk, ReadsFrom, NoEntryBehind, StartsBy;
    var a, w := trace[i], trace[i].ranges[r].id;
    RunStaysWhole(trace, events, i, w);
    CountOf(a.ranges[r], a.streams, w);
    ServedCovers(a, pts, flags, r, trace[i + 1]);
    WholeWindowIsSeekable(a.ranges[r], a.streams, pts, v);
    InexactSeekFollowsVideo(a, pts, flags, r, trace[i + 1], v, n);
    ServedCount(a, pts, flags, r, trace[i + 1]);
  }

  lemma ServedCount(a: Cache, pts: real, flags: SeekFlags, r: nat, b: Cache)
    requires Happens(a, SeekServed(pts, flags, r), true, b) && r < |a.ranges|
    ensures |b.streams| == |a.streams|
  {
    hide QueuesOk, SeekTo, SwitchedAway;
  }

  lemma {:induction false} StaysBackward(x: Range, ss: seq<Stream>, n: nat, pts: real, flags: SeekFlags)
    requires n <= |x.queues| == |ss| && QueuesOk(x.queues) && !flags.forward
    ensures !SeekTo(x, ss, n, pts, flags).forward
    decreases |ss| - n
  {
    hide QueueOk;
    if n < |ss| {
      StaysBackward(x, ss, n + 1, pts, flags);
    }
  }

  /** A backward seek served by a range leaves a stream without a packet to read if and only if the
      stream has no keyframe there. */
  lemma ServedFinds(a: Cache, pts: real, flags: SeekFlags, r: nat, b: Cache, n: nat)
    requires Happens(a, SeekServed(pts, flags, r), true, b) && !flags.forward
    requires r < |a.ranges| && n < |a.streams|
    ensures n < |a.ranges[r].queues| && n < |b.streams|
    ensures b.streams[n].reader.NoPacket? <==> NoSeekPoint(a.ranges[r].queues[n].packets)
  {
    hide QueueOk, SeekTarget, Forward, SwitchedAway, SeekTo, NoSeekPoint, Covers;
    ServedCovers(a, pts, flags, r, b);
    var x, ss := a.ranges[r], UnreadAll(a.streams);
    StaysBackward(x, ss, 0, pts, flags);
    BackwardFindsSome(x.queues[n], SeekTo(x, ss, 0, pts, flags).pts);
  }

  // ---------- when the selection changes ----------

  /** Streams that restrict windows alike as far as these queues are concerned. */
  predicate SameEffect(qs: seq<Queue>, ss: seq<Stream>, ts: seq<Stream>) {
    && |qs| == |ss| == |ts|
    && forall i :: 0 <= i < |ss| ==>
         && Restricts(ss[i]) == Restricts(ts[i])
         && (Sparse(ss[i]) == Sparse(ts[i]) || qs[i].lastPruned == NOPTS)
  }

  lemma {:induction false} SameEffectUpTo(qs: seq<Queue>, ss: seq<Stream>, ts: seq<Stream>, n: nat)
    requires SameEffect(qs, ss, ts) && n <= |qs|
    ensures EagerWindow(qs, ss, n) == EagerWindow(qs, ts, n)
    ensures forall start :: SparseStart(qs, ss, n, start) == SparseStart(qs, ts, n, start)
  {
    if n > 0 {
      SameEffectUpTo(qs, ss, ts, n - 1);
    }
  }

  lemma SameEffectWindow(qs: seq<Queue>, ss: seq<Stream>, ts: seq<Stream>)
    requires SameEffect(qs, ss, ts)
    ensures SeekWindow(qs, ss) == SeekWindow(qs, ts)
  {
    SameEffectUpTo(qs, ss, ts, |qs|);
    assert Blocked(qs, ss, |qs|) <==> Blocked(qs, ts, |qs|);
  }

  /** Selecting an audio or video stream renews the windows before the stream counts as read
      eagerly: every range keeps the window it had without the stream, although none of them holds
      a packet of it and an up-to-date window would be empty. So an in-cache seek right after a
      selection may be served by a range the new stream has nothing in; and exactly then, if it is
      a backward one, the stream is left with nothing to read (`ServedFinds`). */
  lemma SelectionLeavesWindow(ss: seq<Stream>, n: nat, x: Range)
    requires n < |ss| == |x.queues| && !ss[n].selected && !ss[n].eager
    requires !ss[n].attachedPicture && ss[n].kind != Sub && x.queues[n] == Cleared(x.queues[n])
    requires Window(x.seekStart, x.seekEnd) == SeekWindow(x.queues, ss) && AllTimed(x.queues)
    ensures var chosen := ss[n := ss[n].(selected := true)];
      var reset := chosen[n := Reselected(chosen[n])];
      && WithWindow(Deselected(x, n, true), reset) == x
      && SeekWindow(x.queues, WithEagerness(reset)) == NO_WINDOW
  {
    var chosen := ss[n := ss[n].(selected := true)];
    var reset := chosen[n := Reselected(chosen[n])];
    SameEffectWindow(x.queues, ss, reset);
    var ts := WithEagerness(reset);
    assert Restricts(ts[n]) && Empty(x.queues[n]);
    assert Blocked(x.queues, ts, |ts|);
    hide EagerWindow;
    BlockedWindow(x.queues, ts, |ts|);
  }

  lemma {:induction false} BlockedWindow(qs: seq<Queue>, ss: seq<Stream>, n: nat)
    requires n <= |qs| == |ss| && AllTimed(qs)
    ensures SparseStart(qs, ss, n, NOPTS) >= NOPTS
  {
    if n > 0 {
      BlockedWindow(qs, ss, n - 1);
    }
  }
}
