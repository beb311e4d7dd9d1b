/** The protocol between the reader and the demuxer thread, as atomic steps at the places where the
    lock is taken or dropped, seen from one stream that is read eagerly. The lock is dropped around
    the low-level seek and around reading, so seeks may be queued in between, by the user or by
    the cache itself. */
module DemuxProtocol {
  import opened Timestamps
  import opened PacketQueue
  import opened RangeJoin
  import opened RefreshSeek

  /** Where the demuxer thread is. In `InRead` it produces packets and delivers them in order. */
  datatype Phase = Idle | InSeek(gen: nat) | InRead | ReadDone(eof: bool)

  /** Which seek something stems from, and which one was queued last when the lock was taken to
      let it in. */
  datatype Stamp = Stamp(gen: nat, newest: nat)

  /** A piece of the source, from one packet up to another; `started` if it ever had a packet. */
  datatype Span = Span(from: nat, to: nat, started: bool)

  /** The stream's queue in one cached range, and which piece of the source it holds. */
  datatype Piece = Piece(queue: Queue, span: Span)

  /** Seeks are numbered in the order they are queued; 0 is the initial position. */
  datatype State = State(
    queued: bool,            // a seek waits to be executed
    newest: nat,             // the seek queued last
    position: nat,           // the seek the low-level demuxer performed last
    phase: Phase,
    at: nat,                 // the source packet produced next
    held: nat,               // how many packets before it are not delivered yet
    selected: bool,
    current: Piece,
    others: seq<Piece>,      // the stream's queues in the ranges put aside
    refreshing: bool,
    eof: bool,
    accepted: seq<Stamp>,    // history of the packets that entered the queue
    ends: seq<Stamp>)        // history of the recorded ends of the input

  /** Part of what an end of the input leads to: this stream's last keyframe range is closed, or it
      is attempted to join the current range with another one, by what is known of the stream's
      order. */
  datatype Action = Close | Join(other: nat, o: Order)

  datatype Event =
    | Reset(seekable: bool)           // a seek that no range covers
    | SwitchTo(other: nat)            // a seek into another range
    | Retry                           // a reader asks again, or a seek stays in the range
    | Refresh                         // another stream was selected
    | Select(seek: bool)
    | Deselect
    | Flush
    | TryJoin(other: nat, o: Order)
    | Prune(k: nat)
    | PruneOther(other: nat, k: nat)
    | Forget(other: nat)
    | BeginSeek
    | EndSeek(landing: nat)
    | BeginRead
    | Produce
    | Deliver
    | EndRead(eof: bool)
    | FinishRead(actions: seq<Action>)

  // ---------- pieces of the source ----------

  /** What tells the packets of a stream apart: dts, or pos if there are no dts. */
  datatype Key = ByDts | ByPos

  predicate Ordered(src: seq<Media>, key: Key) {
    match key
    case ByDts => (forall i :: 0 <= i < |src| ==> src[i].dts > NOPTS) && Increasing(src, Order(true, false))
    case ByPos =>
      (forall i :: 0 <= i < |src| ==> src[i].dts == NOPTS && src[i].pos >= 0) && Increasing(src, Order(false, true))
  }

  /** The queue knows that packet `last` is the last one it took. */
  predicate EndsWith(q: Queue, last: Media, key: Key) {
    if key.ByDts? then q.lastDts == last.dts else q.lastPos == last.pos && !q.correctDts
  }

  predicate InOrder(q: Queue, key: Key) {
    if key.ByDts? then q.correctDts else q.correctPos
  }

  predicate NeverTook(q: Queue, key: Key) {
    if key.ByDts? then q.lastDts == NOPTS else q.lastPos == -1
  }

  /** The queue holds its piece of the source, and knows where it ends. */
  predicate Holds(x: Piece, src: seq<Media>, key: Key) {
    && QueueOk(x.queue) && InOrder(x.queue, key)
    && Window(x.queue, src, x.span.from, x.span.to)
    && if x.span.started then x.span.to > 0 && EndsWith(x.queue, src[x.span.to - 1], key)
       else x.span.from == x.span.to && NeverTook(x.queue, key)
  }

  function ClearedPiece(x: Piece): (r: Piece)
    ensures QueueOk(r.queue)
  {
    Piece(Cleared(x.queue), Span(x.span.to, x.span.to, false))
  }

  function AddedPiece(x: Piece, d: nat, m: Media, video: bool): (r: Piece)
    requires QueueOk(x.queue)
    ensures QueueOk(r.queue)
  {
    ReadableIfOk(x.queue);
    AddedOk(x.queue, m, video);
    Piece(Added(x.queue, m, video), Span(if x.span.started then x.span.from else d, d + 1, true))
  }

  function DroppedPiece(x: Piece, k: nat): (r: Piece)
    requires QueueOk(x.queue) && k <= |x.queue.packets|
    ensures QueueOk(r.queue)
  {
    DropOk(x.queue, k);
    Piece(Drop(x.queue, k), x.span.(from := x.span.from + k))
  }

  /** Where the other queue overlaps with this one. */
  function JoinPointOf(x: Piece, y: Piece, o: Order): (j: JoinPoint)
    ensures j.keep <= |y.queue.packets|
  {
    if x.queue.packets == [] then Found(0)
    else Overlap(y.queue, x.queue.packets[|x.queue.packets| - 1].media, o, 0)
  }

  function JoinedPiece(x: Piece, y: Piece, o: Order): (r: Piece)
    requires QueueOk(x.queue) && QueueOk(y.queue)
    ensures QueueOk(r.queue)
  {
    var keep := JoinPointOf(x, y, o).keep;
    DropOk(y.queue, keep);
    OkIsJoinable(x.queue, Drop(y.queue, keep));
    JoinedOk(x.queue, Drop(y.queue, keep));
    Piece(Joined(x.queue, Drop(y.queue, keep)),
          if x.queue.packets == [] then y.span else Span(x.span.from, y.span.to, true))
  }

  lemma AddedHolds(x: Piece, d: nat, m: Media, video: bool, src: seq<Media>, key: Key)
    requires Ordered(src, key) && Holds(x, src, key) && d < |src| && (x.span.started ==> d == x.span.to)
    requires NormalPts(m, video) == src[d] && SameKeys(m, src[d])
    ensures Holds(AddedPiece(x, d, m, video), src, key)
  {
    hide QueueOk, Added;
    ReadableIfOk(x.queue);
    AddedOk(x.queue, m, video);
    var from := if x.span.started then x.span.from else d;
    assert src[from..d + 1] == src[from..d] + [src[d]];
    assert Medias(x.queue.packets) == src[from..d];
    assert x.span.started ==> src[d - 1].dts < src[d].dts || src[d - 1].pos < src[d].pos;
    AddedKeys(x.queue, m, video);
  }

  predicate SameKeys(m: Media, n: Media) { m.dts == n.dts && m.pos == n.pos }

  lemma AddedKeys(q: Queue, m: Media, video: bool)
    requires Readable(q)
    ensures var a := Added(q, m, video);
      && a.lastDts == m.dts && a.lastPos == m.pos
      && a.correctDts == (q.correctDts && m.dts != NOPTS && m.dts > q.lastDts)
      && a.correctPos == (q.correctPos && m.pos >= 0 && m.pos > q.lastPos)
  {
  }

  lemma DroppedHolds(x: Piece, k: nat, src: seq<Media>, key: Key)
    requires Holds(x, src, key) && k <= |x.queue.packets|
    ensures Holds(DroppedPiece(x, k), src, key)
  {
    DropOk(x.queue, k);
    var sp := x.span;
    assert |Medias(x.queue.packets)| == sp.to - sp.from;
    assert Medias(x.queue.packets[k..]) == Medias(x.queue.packets)[k..] == src[sp.from + k..sp.to];
  }

  lemma ClearedHolds(x: Piece, src: seq<Media>, key: Key)
    requires Holds(x, src, key)
    ensures Holds(ClearedPiece(x), src, key)
  {
  }

  /** Joining pieces of one source gives the piece that spans both. */
  lemma JoinedHolds(x: Piece, y: Piece, o: Order, src: seq<Media>, key: Key)
    requires Ordered(src, key) && Holds(x, src, key) && Holds(y, src, key)
    requires JoinPointOf(x, y, o).Found?
    ensures Holds(JoinedPiece(x, y, o), src, key)
  {
    hide QueueOk, Joined, Overlap, Drop, JoinPointOf, Ordered;
    var rest := Drop(y.queue, JoinPointOf(x, y, o).keep);
    DropOk(y.queue, JoinPointOf(x, y, o).keep);
    OkIsJoinable(x.queue, rest);
    JoinedEnds(x.queue, rest);
    RestEnds(y.queue, JoinPointOf(x, y, o).keep);
    JoinedContent(x, y, o, src, key);
  }

  lemma RestEnds(q: Queue, k: nat)
    requires k <= |q.packets|
    ensures var r := Drop(q, k);
      && r.packets == q.packets[k..] && r.lastDts == q.lastDts && r.lastPos == q.lastPos
      && r.correctDts == q.correctDts && r.correctPos == q.correctPos
  {
  }

  lemma JoinedContent(x: Piece, y: Piece, o: Order, src: seq<Media>, key: Key)
    requires Ordered(src, key) && Holds(x, src, key) && Holds(y, src, key)
    requires JoinPointOf(x, y, o).Found?
    ensures var ps := x.queue.packets + y.queue.packets[JoinPointOf(x, y, o).keep..];
      if x.queue.packets == [] then ps == y.queue.packets
      else y.span.started && x.span.from <= y.span.to <= |src| && Medias(ps) == src[x.span.from..y.span.to]
  {
    hide QueueOk, Overlap;
    var q1, q2 := x.queue, y.queue;
    var keep := JoinPointOf(x, y, o).keep;
    if q1.packets == [] {
      assert q1.packets + q2.packets[0..] == q2.packets;
    } else {
      PieceEnds(x, src, key);
      FoundIsExact(src, x.span.to - 1, q2, y.span.from, y.span.to, o, 0);
      WindowsMeet(src, q1, x.span.from, x.span.to, q2, y.span.from, y.span.to, keep);
      assert |Medias(q2.packets)| == |q2.packets| == y.span.to - y.span.from;
    }
  }

  lemma PieceEnds(x: Piece, src: seq<Media>, key: Key)
    requires Holds(x, src, key) && x.queue.packets != []
    ensures x.span.from < x.span.to <= |src| && x.span.started
    ensures x.queue.packets[|x.queue.packets| - 1].media == src[x.span.to - 1]
  {
    var ms := Medias(x.queue.packets);
    assert |ms| == |x.queue.packets| == x.span.to - x.span.from;
    assert ms[|ms| - 1] == src[x.span.to - 1];
  }

  /** Whether a re-delivered packet lies before the queue's last one. */
  lemma BehindIs(x: Piece, m: Media, d: nat, src: seq<Media>, key: Key)
    requires Ordered(src, key) && Holds(x, src, key) && x.span.started && d < |src| && SameKeys(m, src[d])
    ensures StillBehind(x.queue, m) <==> d < x.span.to - 1
  {
    hide QueueOk;
    var last := x.span.to - 1;
    assert d < last ==> src[d].dts < src[last].dts || src[d].pos < src[last].pos;
    assert d > last ==> src[last].dts < src[d].dts || src[last].pos < src[d].pos;
  }

  // ---------- the steps ----------

  predicate AllOk(xs: seq<Piece>) {
    forall i :: 0 <= i < |xs| ==> QueueOk(xs[i].queue)
  }

  predicate Formed(s: State) {
    QueueOk(s.current.queue) && AllOk(s.others)
  }

  function Without(xs: seq<Piece>, i: nat): (r: seq<Piece>)
    requires i < |xs|
    ensures |r| == |xs| - 1 && (AllOk(xs) ==> AllOk(r))
  {
    xs[..i] + xs[i + 1..]
  }

  function AllCleared(xs: seq<Piece>): (r: seq<Piece>)
    ensures |r| == |xs| && AllOk(r)
  {
    seq(|xs|, i requires 0 <= i < |xs| => ClearedPiece(xs[i]))
  }

  function NextOut(s: State): int { s.at - s.held }

  function QueueSeek(s: State): State {
    s.(queued := true, newest := s.newest + 1)
  }

  predicate HadPackets(q: Queue) { q.lastPos != -1 || q.lastDts != NOPTS }

  predicate Joins(s: State, other: nat, o: Order)
    requires other < |s.others|
  {
    JoinPointOf(s.current, s.others[other], o).Found?
  }

  /** attempt_range_joining: the other range goes; if it overlaps, its packets are taken over and a
      seek to its end is queued. */
  function Attempted(s: State, other: nat, o: Order): (r: State)
    requires Formed(s) && other < |s.others|
    ensures Formed(r) && |r.others| == |s.others| - 1
  {
    var t := s.(others := Without(s.others, other));
    if Joins(s, other, o) then
      QueueSeek(t).(current := JoinedPiece(s.current, s.others[other], o), refreshing := s.selected)
    else t
  }

  function ClosedPiece(x: Piece): (r: Piece)
    requires QueueOk(x.queue)
    ensures QueueOk(r.queue)
  {
    ReadableIfOk(x.queue);
    AdjustedOk(x.queue, Null);
    Piece(Adjusted(x.queue, Null), x.span)
  }

  predicate Possible(actions: seq<Action>, others: nat)
    decreases |actions|
  {
    actions == [] || match actions[0]
      case Close => Possible(actions[1..], others)
      case Join(i, _) => i < others && Possible(actions[1..], others - 1)
  }

  function Acted(s: State, a: Action): (r: State)
    requires Formed(s) && Possible([a], |s.others|)
    ensures Formed(r) && |r.others| == |s.others| - (if a.Join? then 1 else 0)
  {
    match a
    case Close => s.(current := ClosedPiece(s.current))
    case Join(i, o) => Attempted(s, i, o)
  }

  function AllActed(s: State, actions: seq<Action>): (r: State)
    requires Formed(s) && Possible(actions, |s.others|)
    ensures Formed(r)
    decreases |actions|
  {
    if actions == [] then s else AllActed(Acted(s, actions[0]), actions[1..])
  }

  predicate AnyJoins(s: State, actions: seq<Action>)
    requires Formed(s) && Possible(actions, |s.others|)
    decreases |actions|
  {
    actions != [] &&
    ((actions[0].Join? && Joins(s, actions[0].other, actions[0].o)) || AnyJoins(Acted(s, actions[0]), actions[1..]))
  }

  /** What may happen next. A low-level seek may end anywhere. */
  predicate Enabled(s: State, e: Event, src: seq<Media>) {
    match e
    case SwitchTo(i) => i < |s.others|
    case Select(_) => !s.selected
    case TryJoin(i, _) => i < |s.others|
    case Prune(k) => k <= |s.current.queue.packets|
    case PruneOther(i, k) => i < |s.others| && k <= |s.others[i].queue.packets|
    case Forget(i) => i < |s.others|
    case BeginSeek => s.phase.Idle? && s.queued
    case EndSeek(k) => s.phase.InSeek? && k <= |src|
    case BeginRead => s.phase.Idle? && !s.queued && !s.eof
    case Produce => s.phase.InRead? && s.at < |src|
    case Deliver => s.phase.InRead? && 0 < s.held <= s.at <= |src|
    case EndRead(eof) => s.phase.InRead? && s.held == 0
    case FinishRead(actions) =>
      && s.phase.ReadDone? && Possible(actions, |s.others|)
      && (s.queued || !s.phase.eof ==> actions == [])
    case _ => true
  }

  lemma FreshOk()
    ensures QueueOk(FRESH_QUEUE)
  {
  }

  /** A seek that no range covers: the stream continues with a blank queue, in a new range if the
      cache is seekable. */
  function Missed(s: State, seekable: bool): (r: State)
    ensures Formed(s) ==> Formed(r)
  {
    FreshOk();
    var t := QueueSeek(s).(eof := false);
    if seekable then
      t.(others := s.others + [s.current], current := Piece(FRESH_QUEUE, Span(0, 0, false)), refreshing := false)
    else
      t.(current := ClearedPiece(s.current))
  }

  /** The second half of read_packet. An end is recorded only after the queues were told of it,
      which may have joined ranges. */
  function Finished(s: State, actions: seq<Action>): (r: State)
    requires Formed(s) && s.phase.ReadDone? && Possible(actions, |s.others|)
    ensures Formed(r)
  {
    if s.queued then s.(phase := Idle)
    else if !s.phase.eof then s.(phase := Idle, eof := false)
    else AllActed(s, actions).(phase := Idle, eof := true, ends := s.ends + [Stamp(s.position, s.newest)])
  }

  /** demux_add_packet, up to joins: refused while a seek is queued, dropped while refreshing. */
  function Delivered(s: State, m: Media, video: bool): (r: State)
    requires Formed(s) && 0 < s.held <= s.at
    ensures Formed(r)
  {
    var t := s.(held := s.held - 1);
    if s.queued || !s.selected then t
    else if s.refreshing then t.(refreshing := StillBehind(s.current.queue, m))
    else t.(current := AddedPiece(s.current, s.at - s.held, m, video), eof := false,
            accepted := s.accepted + [Stamp(s.position, s.newest)])
  }

  function Next(s: State, e: Event, src: seq<Media>, video: bool): (r: State)
    requires Formed(s) && Enabled(s, e, src)
    ensures Formed(r)
  {
    match e
    case Reset(seekable) => Missed(s, seekable)
    case SwitchTo(i) =>
      QueueSeek(s).(others := Without(s.others, i) + [s.current], current := s.others[i],
                    refreshing := s.selected, eof := false)
    case Retry => s.(eof := false)
    case Refresh => QueueSeek(s).(refreshing := s.refreshing || (s.selected && HadPackets(s.current.queue)))
    case Select(seek) => (if seek then QueueSeek(s) else s).(selected := true, refreshing := false)
    case Deselect =>
      s.(selected := false, refreshing := false, current := ClearedPiece(s.current), others := AllCleared(s.others))
    case Flush => s.(current := ClearedPiece(s.current), others := [])
    case TryJoin(i, o) => Attempted(s, i, o)
    case Prune(k) => s.(current := DroppedPiece(s.current, k))
    case PruneOther(i, k) => s.(others := s.others[i := DroppedPiece(s.others[i], k)])
    case Forget(i) => s.(others := Without(s.others, i))
    case BeginSeek => s.(queued := false, phase := InSeek(s.newest))
    case EndSeek(k) => s.(phase := Idle, at := k, held := 0, position := s.phase.gen)
    case BeginRead => s.(phase := InRead, eof := false)
    case Produce => s.(at := s.at + 1, held := s.held + 1)
    case Deliver => Delivered(s, src[s.at - s.held], video)
    case EndRead(eof) => s.(phase := ReadDone(eof))
    case FinishRead(actions) => Finished(s, actions)
  }

  /** A run: every event is possible when it happens. */
  predicate Runs(s: State, events: seq<Event>, src: seq<Media>, video: bool)
    requires Formed(s)
    decreases |events|
  {
    events == [] ||
    (Enabled(s, events[0], src) && Runs(Next(s, events[0], src, video), events[1..], src, video))
  }

  function After(s: State, events: seq<Event>, src: seq<Media>, video: bool): (r: State)
    requires Formed(s) && Runs(s, events, src, video)
    ensures Formed(r)
    decreases |events|
  {
    if events == [] then s else After(Next(s, events[0], src, video), events[1..], src, video)
  }

  const INITIAL: State :=
    State(false, 0, 0, Idle, 0, 0, true, Piece(FRESH_QUEUE, Span(0, 0, false)), [], false, false, [], [])

  lemma InitialOk()
    ensures Formed(INITIAL)
  {
    FreshOk();
  }

  // ---------- nothing stale ----------

  /** No seek is queued or under way. */
  predicate Settled(s: State) { !s.queued && !s.phase.InSeek? }

  predicate AllCurrent(log: seq<Stamp>) {
    forall i :: 0 <= i < |log| ==> log[i].gen == log[i].newest
  }

  /** The seek under way is the newest one unless another is queued; once seeks are settled, the
      demuxer's position is that of the newest; and nothing older was ever let in. */
  predicate UpToDate(s: State) {
    && (s.phase.InSeek? && !s.queued ==> s.phase.gen == s.newest)
    && (Settled(s) ==> s.position == s.newest)
    && AllCurrent(s.accepted) && AllCurrent(s.ends)
  }

  /** What an action at the end of the input leaves alone, and when it queues a seek. */
  lemma ActionLeaves(s: State, a: Action)
    requires Formed(s) && Possible([a], |s.others|)
    ensures var r := Acted(s, a);
      && r.phase == s.phase && r.ends == s.ends && r.accepted == s.accepted && r.position == s.position
      && r.newest >= s.newest && (r.queued <==> s.queued || (a.Join? && Joins(s, a.other, a.o)))
      && (r.newest > s.newest ==> r.queued)
  {
    hide JoinPointOf, JoinedPiece, AllOk, QueueOk, ClosedPiece;
  }

  lemma {:induction false} ActionsLeave(s: State, actions: seq<Action>)
    requires Formed(s) && Possible(actions, |s.others|)
    ensures var r := AllActed(s, actions);
      && r.phase == s.phase && r.ends == s.ends && r.accepted == s.accepted && r.position == s.position
      && r.newest >= s.newest && (r.queued <==> s.queued || AnyJoins(s, actions))
      && (r.newest > s.newest ==> r.queued)
    decreases |actions|
  {
    hide Formed, Joins;
    if actions != [] {
      ActionLeaves(s, actions[0]);
      ActionsLeave(Acted(s, actions[0]), actions[1..]);
    }
  }

  lemma StepStaysUpToDate(s: State, e: Event, src: seq<Media>, video: bool)
    requires Formed(s) && Enabled(s, e, src) && UpToDate(s)
    ensures UpToDate(Next(s, e, src, video))
  {
    hide AllOk, QueueOk, JoinPointOf, JoinedPiece, AddedPiece, DroppedPiece, ClearedPiece, AllActed, AnyJoins;
    hide StillBehind, HadPackets, Without, AllCleared;
    if e.FinishRead? {
      ActionsLeave(s, e.actions);
    }
  }

  lemma {:induction false} RunStaysUpToDate(s: State, events: seq<Event>, src: seq<Media>, video: bool)
    requires Formed(s) && Runs(s, events, src, video) && UpToDate(s)
    ensures UpToDate(After(s, events, src, video))
    decreases |events|
  {
    hide UpToDate, Enabled, Formed, Next;
    if events != [] {
      StepStaysUpToDate(s, events[0], src, video);
      RunStaysUpToDate(Next(s, events[0], src, video), events[1..], src, video);
    }
  }

  /** Over every interleaving, for every source and wherever low-level seeks land: a packet enters
      the queue only if it was produced after the seek queued last had been performed; and an end
      of the input is recorded only if it was seen after the seek had been performed that was the
      last one queued when the lock was retaken. */
  lemma NothingStale(events: seq<Event>, src: seq<Media>, video: bool)
    requires Runs(INITIAL, events, src, video)
    ensures var t := After(INITIAL, events, src, video); AllCurrent(t.accepted) && AllCurrent(t.ends)
  {
    hide Runs, After, Formed;
    InitialOk();
    RunStaysUpToDate(INITIAL, events, src, video);
  }

  // ---------- nothing lost ----------

  /** A low-level seek ends at or before the last packet the queue has, if the queue is to be
      continued. */
  predicate Trusted(s: State, e: Event) {
    e.EndSeek? && !s.queued && s.current.span.started ==> e.landing < s.current.span.to
  }

  predicate TrustedRun(s: State, events: seq<Event>, src: seq<Media>, video: bool)
    requires Formed(s) && Runs(s, events, src, video)
    decreases |events|
  {
    events == [] ||
    (Trusted(s, events[0]) && TrustedRun(Next(s, events[0], src, video), events[1..], src, video))
  }

  predicate AllHold(xs: seq<Piece>, src: seq<Media>, key: Key) {
    forall i :: 0 <= i < |xs| ==> Holds(xs[i], src, key)
  }

  predicate NoneStarted(xs: seq<Piece>) {
    forall i :: 0 <= i < |xs| ==> !xs[i].span.started
  }

  /** Every range holds a piece of the source. */
  predicate HoldPieces(s: State, src: seq<Media>, key: Key) {
    && Holds(s.current, src, key) && AllHold(s.others, src, key)
    && (!s.selected ==> !s.current.span.started && NoneStarted(s.others))
  }

  /** While a seek is queued or under way, a queue that has had packets waits to be continued; once
      it is settled, the packet delivered next is the one after the queue's last one, or one to be
      dropped. */
  predicate InStep(s: State, count: nat) {
    var sp := s.current.span;
    && s.held <= s.at <= count && (s.held > 0 ==> s.phase.InRead?)
    && (!Settled(s) && sp.started ==> s.refreshing)
    && (Settled(s) && sp.started ==> if s.refreshing then NextOut(s) < sp.to else NextOut(s) == sp.to)
  }

  /** What every step keeps; `src` is what the packets look like once they are queued. */
  predicate Inv(s: State, src: seq<Media>, key: Key) {
    HoldPieces(s, src, key) && InStep(s, |src|)
  }

  /** What is queued differs from what the demuxer delivers in pts only. */
  lemma NormalIs(src: seq<Media>, video: bool, key: Key)
    requires Ordered(src, key)
    ensures Ordered(Normal(src, video), key) && |Normal(src, video)| == |src|
    ensures forall i :: 0 <= i < |src| ==>
      Normal(src, video)[i] == NormalPts(src[i], video) && SameKeys(src[i], Normal(src, video)[i])
  {
  }

  lemma DeliverKeeps(s: State, src: seq<Media>, video: bool, key: Key)
    requires Ordered(src, key) && Formed(s) && Inv(s, Normal(src, video), key) && Enabled(s, Deliver, src)
    ensures Inv(Next(s, Deliver, src, video), Normal(src, video), key)
  {
    hide Holds, AddedPiece, Ordered, StillBehind, QueueOk, AllHold, Normal, NormalPts, SameKeys, AllOk;
    var d := s.at - s.held;
    NormalIs(src, video, key);
    if s.queued || !s.selected {
    } else if s.refreshing {
      if s.current.span.started {
        BehindIs(s.current, src[d], d, Normal(src, video), key);
      }
    } else {
      AddedHolds(s.current, d, src[d], video, Normal(src, video), key);
      AddedSpan(s.current, d, src[d], video);
    }
  }

  lemma AddedSpan(x: Piece, d: nat, m: Media, video: bool)
    requires QueueOk(x.queue)
    ensures AddedPiece(x, d, m, video).span == Span(if x.span.started then x.span.from else d, d + 1, true)
  {
  }

  lemma WithoutHolds(xs: seq<Piece>, i: nat, src: seq<Media>, key: Key)
    requires AllHold(xs, src, key) && i < |xs|
    ensures AllHold(Without(xs, i), src, key) && (NoneStarted(xs) ==> NoneStarted(Without(xs, i)))
  {
    hide Holds;
  }

  lemma AttemptKeeps(s: State, i: nat, o: Order, src: seq<Media>, key: Key)
    requires Ordered(src, key) && Formed(s) && HoldPieces(s, src, key) && i < |s.others|
    ensures HoldPieces(Attempted(s, i, o), src, key)
  {
    hide Holds, Ordered, QueueOk, JoinPointOf, JoinedPiece;
    WithoutHolds(s.others, i, src, key);
    if Joins(s, i, o) {
      JoinedHolds(s.current, s.others[i], o, src, key);
      JoinedStarted(s.current, s.others[i], o, src, key);
    }
  }

  lemma JoinedStarted(x: Piece, y: Piece, o: Order, src: seq<Media>, key: Key)
    requires QueueOk(x.queue) && QueueOk(y.queue) && Holds(x, src, key)
    ensures JoinedPiece(x, y, o).span.started ==> x.span.started || y.span.started
  {
    if x.queue.packets != [] {
      PieceEnds(x, src, key);
    }
  }

  /** Whoever queues a seek leaves a queue to be continued, if it has had any packets. */
  lemma JoinKeeps(s: State, i: nat, o: Order, src: seq<Media>, key: Key)
    requires Ordered(src, key) && Formed(s) && Inv(s, src, key) && i < |s.others|
    ensures Inv(Attempted(s, i, o), src, key)
  {
    hide Holds, Ordered, JoinPointOf, JoinedPiece, AllHold, NoneStarted, AllOk, QueueOk, Without;
    AttemptKeeps(s, i, o, src, key);
  }

  lemma CloseKeeps(s: State, src: seq<Media>, key: Key)
    requires Formed(s) && Inv(s, src, key)
    ensures Inv(s.(current := ClosedPiece(s.current)), src, key)
  {
    hide AllHold, NoneStarted, AllOk, QueueOk;
    ReadableIfOk(s.current.queue);
    AdjustedOk(s.current.queue, Null);
    CloseKeepsEnd(s.current.queue);
    hide Adjusted;
  }

  lemma CloseKeepsEnd(q: Queue)
    requires Readable(q)
    ensures var a := Adjusted(q, Null);
      && a.lastDts == q.lastDts && a.lastPos == q.lastPos
      && a.correctDts == q.correctDts && a.correctPos == q.correctPos
  {
  }

  lemma SwitchingPieces(s: State, e: Event, src: seq<Media>, video: bool, key: Key)
    requires Formed(s) && HoldPieces(s, Normal(src, video), key) && Enabled(s, e, src)
    requires e.Reset? || e.SwitchTo? || e.Refresh? || e.Select? || e.Retry?
    ensures HoldPieces(Next(s, e, src, video), Normal(src, video), key)
  {
    hide Holds, HadPackets, Cleared, AllOk, QueueOk, Normal;
    FreshHolds(Normal(src, video), key);
    ClearedHolds(s.current, Normal(src, video), key);
    if e.SwitchTo? {
      WithoutHolds(s.others, e.other, Normal(src, video), key);
    }
  }

  lemma SwitchingKeeps(s: State, e: Event, src: seq<Media>, video: bool, key: Key)
    requires Ordered(src, key) && Formed(s) && Inv(s, Normal(src, video), key) && Enabled(s, e, src)
    requires e.Reset? || e.SwitchTo? || e.Refresh? || e.Select? || e.Retry?
    ensures Inv(Next(s, e, src, video), Normal(src, video), key)
  {
    hide Holds, HadPackets, Cleared, AllOk, QueueOk, Normal, AllHold, NoneStarted, Without;
    SwitchingPieces(s, e, src, video, key);
    if e.Refresh? && s.current.span.started {
      StartedHadPackets(s.current, src, video, key);
    }
  }

  lemma FreshHolds(src: seq<Media>, key: Key)
    ensures Holds(Piece(FRESH_QUEUE, Span(0, 0, false)), src, key)
  {
  }

  lemma StartedHadPackets(x: Piece, src: seq<Media>, video: bool, key: Key)
    requires Ordered(src, key) && Holds(x, Normal(src, video), key) && x.span.started
    ensures HadPackets(x.queue)
  {
    NormalIs(src, video, key);
  }

  lemma ClearingPieces(s: State, e: Event, src: seq<Media>, video: bool, key: Key)
    requires Formed(s) && HoldPieces(s, Normal(src, video), key) && Enabled(s, e, src)
    requires e.Deselect? || e.Flush? || e.Prune? || e.PruneOther? || e.Forget?
    ensures HoldPieces(Next(s, e, src, video), Normal(src, video), key)
  {
    hide Holds, Cleared, Drop, QueueOk, Normal;
    var norm := Normal(src, video);
    ClearedHolds(s.current, norm, key);
    if e.Prune? {
      DroppedHolds(s.current, e.k, norm, key);
    } else if e.PruneOther? {
      DroppedHolds(s.others[e.other], e.k, norm, key);
    } else if e.Forget? {
      WithoutHolds(s.others, e.other, norm, key);
    } else if e.Deselect? {
      forall i | 0 <= i < |s.others| ensures Holds(ClearedPiece(s.others[i]), norm, key) {
        ClearedHolds(s.others[i], norm, key);
      }
    }
  }

  lemma ClearingKeeps(s: State, e: Event, src: seq<Media>, video: bool, key: Key)
    requires Formed(s) && Inv(s, Normal(src, video), key) && Enabled(s, e, src)
    requires e.Deselect? || e.Flush? || e.Prune? || e.PruneOther? || e.Forget?
    ensures Inv(Next(s, e, src, video), Normal(src, video), key)
  {
    hide HoldPieces, Cleared, Drop, QueueOk, Normal, AllOk, Without, AllCleared;
    ClearingPieces(s, e, src, video, key);
  }

  lemma ThreadKeeps(s: State, e: Event, src: seq<Media>, video: bool, key: Key)
    requires Formed(s) && Inv(s, Normal(src, video), key) && Enabled(s, e, src) && Trusted(s, e)
    requires e.BeginSeek? || e.EndSeek? || e.BeginRead? || e.Produce? || e.EndRead?
    ensures Inv(Next(s, e, src, video), Normal(src, video), key)
  {
    hide Holds, AllHold, AllOk, QueueOk, NoneStarted;
  }

  /** What an end of the input leads to keeps the pieces. */
  lemma {:induction false} ActionsKeep(s: State, actions: seq<Action>, src: seq<Media>, key: Key)
    requires Ordered(src, key) && Formed(s) && Inv(s, src, key)
    requires Possible(actions, |s.others|)
    ensures Inv(AllActed(s, actions), src, key)
    decreases |actions|
  {
    hide Inv, Ordered, Formed;
    if actions != [] {
      var a := actions[0];
      if a.Join? {
        JoinKeeps(s, a.other, a.o, src, key);
      } else {
        CloseKeeps(s, src, key);
      }
      assert Inv(Acted(s, a), src, key);
      ActionsKeep(Acted(s, a), actions[1..], src, key);
    }
  }

  lemma FinishKeeps(s: State, actions: seq<Action>, src: seq<Media>, key: Key)
    requires Ordered(src, key) && Formed(s) && Inv(s, src, key) && s.phase.ReadDone?
    requires Possible(actions, |s.others|)
    ensures Inv(Finished(s, actions), src, key)
  {
    hide Holds, AllHold, NoneStarted, AllActed, AnyJoins, Ordered, Formed;
    ActionsLeave(s, actions);
    ActionsKeep(s, actions, src, key);
  }

  lemma StepKeeps(s: State, e: Event, src: seq<Media>, video: bool, key: Key)
    requires Ordered(src, key) && Formed(s) && Inv(s, Normal(src, video), key)
    requires Enabled(s, e, src) && Trusted(s, e)
    ensures Inv(Next(s, e, src, video), Normal(src, video), key)
  {
    hide HoldPieces, InStep, Ordered, Formed, Normal;
    NormalIs(src, video, key);
    if e.Deliver? {
      DeliverKeeps(s, src, video, key);
    } else if e.TryJoin? {
      JoinKeeps(s, e.other, e.o, Normal(src, video), key);
    } else if e.FinishRead? {
      FinishKeeps(s, e.actions, Normal(src, video), key);
    } else if e.Reset? || e.SwitchTo? || e.Refresh? || e.Select? || e.Retry? {
      SwitchingKeeps(s, e, src, video, key);
    } else if e.BeginSeek? || e.EndSeek? || e.BeginRead? || e.Produce? || e.EndRead? {
      ThreadKeeps(s, e, src, video, key);
    } else {
      ClearingKeeps(s, e, src, video, key);
    }
  }

  lemma {:induction false} RunKeeps(s: State, events: seq<Event>, src: seq<Media>, video: bool, key: Key)
    requires Ordered(src, key) && Formed(s) && Inv(s, Normal(src, video), key)
    requires Runs(s, events, src, video) && TrustedRun(s, events, src, video)
    ensures Inv(After(s, events, src, video), Normal(src, video), key)
    decreases |events|
  {
    hide Inv, Enabled, Ordered, Formed, Next, Normal, Trusted;
    if events != [] {
      StepKeeps(s, events[0], src, video, key);
      RunKeeps(Next(s, events[0], src, video), events[1..], src, video, key);
    }
  }

  /** Over every interleaving with such seeks, for a source whose packets are told apart by
      dts or, if it has none, by pos: in every range the queue is one contiguous piece of the
      source, without gap, duplicate or reordering, however seeks, joins, refreshes, selections,
      range switches and pruning overlap with reading. Once seeks are settled, the next packet
      delivered continues the queue. */
  lemma NothingLost(events: seq<Event>, src: seq<Media>, video: bool, key: Key)
    requires Ordered(src, key)
    requires Runs(INITIAL, events, src, video) && TrustedRun(INITIAL, events, src, video)
    ensures var t, norm := After(INITIAL, events, src, video), Normal(src, video);
      && Window(t.current.queue, norm, t.current.span.from, t.current.span.to)
      && (forall i :: 0 <= i < |t.others| ==>
            Window(t.others[i].queue, norm, t.others[i].span.from, t.others[i].span.to))
      && (t.phase.InRead? && !t.queued && !t.refreshing && t.current.span.started ==>
            t.at - t.held == t.current.span.to)
  {
    hide QueueOk, Ordered, Runs, After, TrustedRun, Formed;
    InitialOk();
    FreshHolds(Normal(src, video), key);
    RunKeeps(INITIAL, events, src, video, key);
    var t := After(INITIAL, events, src, video);
    forall i | 0 <= i < |t.others|
      ensures Window(t.others[i].queue, Normal(src, video), t.others[i].span.from, t.others[i].span.to)
    {
      assert Holds(t.others[i], Normal(src, video), key);
    }
  }

  // ---------- everything arrives ----------

  predicate Reading(s: State) { s.phase.InRead? && !s.queued && s.selected }

  /** The queue will get to the source's end: it is being continued, or a packet for it is on its way. */
  predicate GoesOn(s: State, count: nat) {
    s.current.span.started || (!s.refreshing && NextOut(s) < count)
  }

  lemma DeliverGoesOn(s: State, src: seq<Media>, video: bool, key: Key)
    requires Ordered(src, key) && Formed(s) && Inv(s, Normal(src, video), key) && Reading(s) && s.held > 0
    ensures Enabled(s, Deliver, src) && Inv(Next(s, Deliver, src, video), Normal(src, video), key)
    ensures Reading(Next(s, Deliver, src, video))
    ensures GoesOn(s, |src|) ==> GoesOn(Next(s, Deliver, src, video), |src|)
  {
    NormalIs(src, video, key);
    DeliverKeeps(s, src, video, key);
    AddedSpan(s.current, s.at - s.held, src[s.at - s.held], video);
    hide HoldPieces, Ordered, Formed, AddedPiece, StillBehind;
  }

  lemma ProduceGoesOn(s: State, src: seq<Media>, video: bool, key: Key)
    requires Formed(s) && Inv(s, Normal(src, video), key) && Reading(s) && s.at < |src|
    ensures Enabled(s, Produce, src) && Inv(Next(s, Produce, src, video), Normal(src, video), key)
    ensures Reading(Next(s, Produce, src, video)) && (GoesOn(s, |src|) ==> GoesOn(Next(s, Produce, src, video), |src|))
  {
    hide HoldPieces, Formed;
    ThreadProduces(s, src, video, key);
  }

  lemma ThreadProduces(s: State, src: seq<Media>, video: bool, key: Key)
    requires Formed(s) && Inv(s, Normal(src, video), key) && s.phase.InRead? && s.at < |src|
    ensures Inv(Next(s, Produce, src, video), Normal(src, video), key)
  {
    ThreadKeeps(s, Produce, src, video, key);
  }

  lemma NothingOnItsWay(s: State, src: seq<Media>, key: Key)
    requires Inv(s, src, key) && Reading(s) && s.held == 0 && s.at == |src| && GoesOn(s, |src|)
    ensures s.current.span.started && s.current.span.to == |src|
  {
    assert Holds(s.current, src, key);
  }

  /** Reading on from where such a run has got to, without being interrupted, takes everything the source
      has left: the queue then goes from where it began to the source's end. */
  lemma {:induction false} EverythingArrives(s: State, src: seq<Media>, video: bool, key: Key)
    returns (events: seq<Event>)
    requires Ordered(src, key) && Formed(s) && Inv(s, Normal(src, video), key) && Reading(s) && GoesOn(s, |src|)
    ensures Runs(s, events, src, video) && forall i :: 0 <= i < |events| ==> events[i].Produce? || events[i].Deliver?
    ensures var x := After(s, events, src, video).current;
      && x.span.started && x.span.to == |src| && Window(x.queue, Normal(src, video), x.span.from, |src|)
    decreases 2 * (|src| - s.at) + s.held
  {
    hide Ordered, Formed, Next, HoldPieces, Normal, Holds;
    NormalIs(src, video, key);
    if s.held == 0 && s.at == |src| {
      events := [];
      NothingOnItsWay(s, Normal(src, video), key);
      PieceIsWindow(s, Normal(src, video), key);
    } else {
      var e;
      if s.held > 0 {
        e := Deliver;
        DeliverGoesOn(s, src, video, key);
        DeliverCounts(s, src, video);
      } else {
        e := Produce;
        ProduceGoesOn(s, src, video, key);
        ProduceCounts(s, src, video);
      }
      hide Inv, GoesOn;
      var rest := EverythingArrives(Next(s, e, src, video), src, video, key);
      events := [e] + rest;
      assert events[1..] == rest;
    }
  }

  lemma DeliverCounts(s: State, src: seq<Media>, video: bool)
    requires Formed(s) && Enabled(s, Deliver, src)
    ensures Next(s, Deliver, src, video).at == s.at && Next(s, Deliver, src, video).held == s.held - 1
  {
    hide AddedPiece, StillBehind;
  }

  lemma ProduceCounts(s: State, src: seq<Media>, video: bool)
    requires Formed(s) && Enabled(s, Produce, src)
    ensures Next(s, Produce, src, video).at == s.at + 1 && Next(s, Produce, src, video).held == s.held + 1
  {
  }

  lemma PieceIsWindow(s: State, src: seq<Media>, key: Key)
    requires Inv(s, src, key)
    ensures Window(s.current.queue, src, s.current.span.from, s.current.span.to)
  {
    assert Holds(s.current, src, key);
  }

  // ---------- ends that are overtaken while they are recorded ----------

  /** An end is recorded although a seek is queued if and only if telling the queues of it joined
      ranges; that seek is then newer than the one the end was seen after. */
  lemma EndRecordedWhileQueued(s: State, actions: seq<Action>, src: seq<Media>, video: bool)
    requires Formed(s) && Enabled(s, FinishRead(actions), src) && s.phase.eof && !s.queued
    ensures var r := Next(s, FinishRead(actions), src, video);
      && r.eof && r.ends == s.ends + [Stamp(s.position, s.newest)]
      && (r.queued <==> AnyJoins(s, actions))
  {
    hide Formed, AllActed, AnyJoins;
    ActionsLeave(s, actions);
  }

  /** What stands in the way of reading then: the recorded end stays, so that after the seek nothing
      is read until a reader asks again, or a seek is queued by the user. */
  lemma EndBlocksReading(s: State, e: Event, src: seq<Media>, video: bool)
    requires Formed(s) && Enabled(s, e, src) && s.eof && !s.phase.InRead? && !s.phase.ReadDone?
    ensures !e.BeginRead?
    ensures var r := Next(s, e, src, video);
      r.eof && !r.phase.InRead? && !r.phase.ReadDone? <==> !(e.Retry? || e.Reset? || e.SwitchTo?)
  {
    hide JoinPointOf, JoinedPiece, QueueOk, Cleared, AllOk, DroppedPiece;
  }

  /** A read that was not overtaken and found no end takes an end back that was recorded meanwhile. */
  lemma ReadTakesEndBack(s: State, src: seq<Media>, video: bool)
    requires Formed(s) && Enabled(s, FinishRead([]), src) && !s.phase.eof && !s.queued
    ensures var r := Next(s, FinishRead([]), src, video); !r.eof && r.phase.Idle? && r.ends == s.ends
  {
  }

  /** A refresh for another stream makes this one skip what it has, if it is selected and has had
      packets; one that is yet to get its first packet does not lose it. */
  lemma RefreshMarks(s: State, src: seq<Media>, video: bool)
    requires Formed(s)
    ensures var r, q := Next(s, Refresh, src, video), s.current.queue;
      && r.queued && r.newest == s.newest + 1 && r.current == s.current && r.others == s.others
      && (r.refreshing <==> s.refreshing || (s.selected && (q.lastPos != -1 || q.lastDts != NOPTS)))
  {
  }

  /** A flush leaves the stream with one empty range, and neither queues a seek nor skips anything. */
  lemma FlushForgets(s: State, src: seq<Media>, video: bool)
    requires Formed(s)
    ensures var r := Next(s, Flush, src, video);
      && r.others == [] && r.current.queue.packets == [] && !r.current.span.started
      && r.queued == s.queued && r.newest == s.newest && r.refreshing == s.refreshing
  {
  }

  // ---------- a seek while a refresh is under way ----------

  /** After a seek that no range covers, the first packet delivered is skipped if and only if the
      cache is not seekable and the stream was refreshing. */
  lemma MissedSeekSkips(s: State, seekable: bool, video: bool, held: nat, at: nat, m: Media)
    requires Formed(s) && s.selected && 0 < held <= at && m.dts >= NOPTS
    ensures var t := Missed(s, seekable).(queued := false, phase := InRead, held := held, at := at);
      && Formed(t)
      && var r := Delivered(t, m, video);
         && !r.refreshing
         && (r.current.queue.packets == [] <==> !seekable && s.refreshing)
  {
    var t := Missed(s, seekable).(queued := false, phase := InRead, held := held, at := at);
    ReadableIfOk(t.current.queue);
    var a := Added(t.current.queue, m, video);
    assert |Medias(a.packets)| == |a.packets|;
    hide Added, QueueOk;
  }
}
