/** A run of the demuxer's protocol in which the end of the input is recorded although a seek is
    queued: the whole input is cached, then sought back to the start of and read again, and
    telling the queues of the end joins the two ranges. */
module OvertakenEnd {
  import opened Timestamps
  import opened PacketQueue
  import opened RangeJoin
  import opened RefreshSeek
  import opened DemuxProtocol

  lemma {:induction false} Extend(s: State, events: seq<Event>, e: Event, src: seq<Media>, video: bool)
    requires Formed(s) && Runs(s, events, src, video)
    requires Enabled(After(s, events, src, video), e, src)
    ensures Runs(s, events + [e], src, video)
    ensures After(s, events + [e], src, video) == Next(After(s, events, src, video), e, src, video)
    decreases |events|
  {
    hide Formed, Enabled, Next;
    if events == [] {
      assert ([] + [e])[1..] == [];
    } else {
      Extend(Next(s, events[0], src, video), events[1..], e, src, video);
      assert (events + [e])[1..] == events[1..] + [e];
    }
  }

  const TWO_PACKETS: seq<Media> :=
    [Media(0.0, 0.0, -1, 1, false, false, NOPTS, NOPTS, 0), Media(1.0, 1.0, -1, 1, false, false, NOPTS, NOPTS, 0)]

  /** The queue once the first packet has arrived, and once both have. */
  function OneAdded(): (q: Queue)
    ensures QueueOk(q) && Readable(q) && Medias(q.packets) == TWO_PACKETS[..1]
  {
    AddedOk(FRESH_QUEUE, TWO_PACKETS[0], true);
    assert Medias(FRESH_QUEUE.packets) == [];
    Added(FRESH_QUEUE, TWO_PACKETS[0], true)
  }

  function BothAdded(): (q: Queue)
    ensures QueueOk(q) && Medias(q.packets) == TWO_PACKETS
  {
    AddedOk(OneAdded(), TWO_PACKETS[1], true);
    Added(OneAdded(), TWO_PACKETS[1], true)
  }

  predicate ReadyToRead(s: State) {
    && s.phase.Idle? && !s.queued && !s.eof && s.at == 0 && s.held == 0 && s.selected && !s.refreshing
    && s.current == Piece(FRESH_QUEUE, Span(0, 0, false)) && AllOk(s.others)
  }

  function Accepting(s: State, current: Piece): State {
    s.(current := current, eof := false, accepted := s.accepted + [Stamp(s.position, s.newest)])
  }

  /** Both packets are read into a fresh range, and then the end. */
  function Produced(s: State): State { s.(phase := InRead, eof := false, at := 2, held := 2) }

  function FirstTaken(s: State): State { Accepting(Produced(s), Piece(OneAdded(), Span(0, 1, true))).(held := 1) }

  function BothTaken(s: State): State { Accepting(FirstTaken(s), Piece(BothAdded(), Span(0, 2, true))).(held := 0) }

  lemma DeliveringFirst(s: State)
    requires ReadyToRead(s)
    ensures Formed(Produced(s)) && Enabled(Produced(s), Deliver, TWO_PACKETS)
    ensures Next(Produced(s), Deliver, TWO_PACKETS, true) == FirstTaken(s)
  {
    hide AllOk, QueueOk, Added, Readable;
    FreshHolds(TWO_PACKETS, ByDts);
  }

  lemma DeliveringSecond(s: State)
    requires ReadyToRead(s)
    ensures Formed(FirstTaken(s)) && Enabled(FirstTaken(s), Deliver, TWO_PACKETS)
    ensures Next(FirstTaken(s), Deliver, TWO_PACKETS, true) == BothTaken(s)
    ensures Formed(BothTaken(s)) && Enabled(BothTaken(s), EndRead(true), TWO_PACKETS)
    ensures Next(BothTaken(s), EndRead(true), TWO_PACKETS, true) == BothTaken(s).(phase := ReadDone(true))
  {
    hide AllOk, QueueOk, Added, Readable, OneAdded;
  }

  lemma Producing(s: State)
    requires ReadyToRead(s)
    ensures Formed(s) && Formed(s.(phase := InRead)) && Formed(s.(phase := InRead, at := 1, held := 1))
    ensures Enabled(s, BeginRead, TWO_PACKETS) && Enabled(s.(phase := InRead), Produce, TWO_PACKETS)
    ensures Enabled(s.(phase := InRead, at := 1, held := 1), Produce, TWO_PACKETS)
    ensures Next(s, BeginRead, TWO_PACKETS, true) == s.(phase := InRead)
    ensures Next(s.(phase := InRead), Produce, TWO_PACKETS, true) == s.(phase := InRead, at := 1, held := 1)
    ensures Next(s.(phase := InRead, at := 1, held := 1), Produce, TWO_PACKETS, true) == Produced(s)
  {
    hide AllOk, QueueOk;
    FreshHolds(TWO_PACKETS, ByDts);
  }

  lemma ReadBoth(s: State, events: seq<Event>) returns (more: seq<Event>)
    requires Formed(s) && Runs(s, events, TWO_PACKETS, true) && ReadyToRead(After(s, events, TWO_PACKETS, true))
    ensures Runs(s, more, TWO_PACKETS, true)
    ensures var t := After(s, events, TWO_PACKETS, true);
      After(s, more, TWO_PACKETS, true) == BothTaken(t).(phase := ReadDone(true))
  {
    hide Runs, After, Formed, Enabled, Next, FirstTaken, BothTaken, Produced, ReadyToRead;
    var t := After(s, events, TWO_PACKETS, true);
    Producing(t);
    DeliveringFirst(t);
    DeliveringSecond(t);
    more := events + [BeginRead];
    Extend(s, events, BeginRead, TWO_PACKETS, true);
    Extend(s, more, Produce, TWO_PACKETS, true);
    more := more + [Produce];
    Extend(s, more, Produce, TWO_PACKETS, true);
    more := more + [Produce];
    Extend(s, more, Deliver, TWO_PACKETS, true);
    more := more + [Deliver];
    Extend(s, more, Deliver, TWO_PACKETS, true);
    more := more + [Deliver];
    Extend(s, more, EndRead(true), TWO_PACKETS, true);
    more := more + [EndRead(true)];
  }

  predicate AtEnd(s: State) {
    s.phase == ReadDone(true) && !s.queued && s.selected && s.others == [] && QueueOk(s.current.queue)
  }

  /** The end is recorded, after the queue was told of it. */
  function Ended(s: State): State
    requires QueueOk(s.current.queue)
  {
    s.(phase := Idle, eof := true, current := ClosedPiece(s.current), ends := s.ends + [Stamp(s.position, s.newest)])
  }

  lemma Ending(s: State)
    requires AtEnd(s)
    ensures Formed(s) && Enabled(s, FinishRead([Close]), TWO_PACKETS)
    ensures Next(s, FinishRead([Close]), TWO_PACKETS, true) == Ended(s)
    ensures Formed(Ended(s)) && Formed(Missed(Ended(s), true))
  {
    hide QueueOk, ClosedPiece;
    FreshHolds(TWO_PACKETS, ByDts);
    assert AllActed(s, [Close]) == s.(current := ClosedPiece(s.current)) by {
      assert AllActed(s.(current := ClosedPiece(s.current)), []) == s.(current := ClosedPiece(s.current));
    }
  }

  lemma SeekingBack(s: State)
    requires Formed(s) && s.queued && s.phase.Idle?
    ensures Enabled(s, BeginSeek, TWO_PACKETS)
    ensures var t := Next(s, BeginSeek, TWO_PACKETS, true);
      && t == s.(queued := false, phase := InSeek(s.newest)) && Formed(t)
      && (!s.current.span.started ==>
            (var u := s.(queued := false, at := 0, held := 0, position := s.newest);
             Enabled(t, EndSeek(0), TWO_PACKETS) && Next(t, EndSeek(0), TWO_PACKETS, true) == u))
  {
    hide QueueOk;
  }

  /** Seeking back to the start: the range is put aside, and reading starts afresh. */
  lemma StartOver(s: State, events: seq<Event>) returns (more: seq<Event>)
    requires Formed(s) && Runs(s, events, TWO_PACKETS, true) && AtEnd(After(s, events, TWO_PACKETS, true))
    ensures Runs(s, more, TWO_PACKETS, true)
    ensures var t, r := After(s, events, TWO_PACKETS, true), After(s, more, TWO_PACKETS, true);
      ReadyToRead(r) && r.others == [ClosedPiece(t.current)] && r.ends == t.ends + [Stamp(t.position, t.newest)]
  {
    hide Runs, After, QueueOk, ClosedPiece, Next, Enabled;
    var t := After(s, events, TWO_PACKETS, true);
    Ending(t);
    Resetting(Ended(t));
    SeekingBack(Missed(Ended(t), true));
    more := events + [FinishRead([Close])];
    Extend(s, events, FinishRead([Close]), TWO_PACKETS, true);
    Extend(s, more, Reset(true), TWO_PACKETS, true);
    more := more + [Reset(true)];
    Extend(s, more, BeginSeek, TWO_PACKETS, true);
    more := more + [BeginSeek];
    Extend(s, more, EndSeek(0), TWO_PACKETS, true);
    more := more + [EndSeek(0)];
  }

  lemma Resetting(s: State)
    requires Formed(s)
    ensures Enabled(s, Reset(true), TWO_PACKETS) && Next(s, Reset(true), TWO_PACKETS, true) == Missed(s, true)
  {
    hide QueueOk;
  }

  lemma BothOverlap()
    ensures var x := Piece(BothAdded(), Span(0, 2, true)); JoinPointOf(x, ClosedPiece(x), Order(true, false)).Found?
  {
    var q := BothAdded();
    var c := ClosedPiece(Piece(q, Span(0, 2, true))).queue;
    assert |q.packets| == |Medias(q.packets)| == 2;
    assert Medias(q.packets)[1] == TWO_PACKETS[1];
    CloseForgets(q);
    hide Adjusted, Added, BothAdded, Overlap, QueueOk;
    LastOverlaps(c);
  }

  lemma LastOverlaps(q: Queue)
    requires Medias(q.packets) == TWO_PACKETS && q.keyframeLatest == Null
    ensures Overlap(q, TWO_PACKETS[1], Order(true, false), 0).Found?
  {
    assert |q.packets| == |Medias(q.packets)| == 2;
    assert Medias(q.packets)[0] == TWO_PACKETS[0] && Medias(q.packets)[1] == TWO_PACKETS[1];
    assert Overlap(q, TWO_PACKETS[1], Order(true, false), 1) == Found(2);
  }

  lemma CloseForgets(q: Queue)
    requires Readable(q)
    ensures Adjusted(q, Null).keyframeLatest == Null
  {
  }

  lemma LastEnd(s: State, i: Action)
    requires s.phase == ReadDone(true) && !s.queued && i == Join(0, Order(true, false))
    requires s.current == Piece(BothAdded(), Span(0, 2, true)) && s.others == [ClosedPiece(s.current)]
    ensures Formed(s) && Enabled(s, FinishRead([i]), TWO_PACKETS)
    ensures var r := Next(s, FinishRead([i]), TWO_PACKETS, true);
      r.eof && r.queued && r.ends == s.ends + [Stamp(s.position, s.newest)] && r.newest > s.newest
  {
    hide QueueOk, BothAdded, ClosedPiece, JoinPointOf, JoinedPiece, Readable;
    BothOverlap();
    assert Possible([i][1..], 0);
    assert AllActed(s, [i]) == AllActed(Acted(s, i), [i][1..]) == Acted(s, i);
  }

  /** A run in which an end is recorded while a seek is queued: everything is cached, then sought
      back to the start of and read again to the end. */
  lemma AnEndIsOvertaken() returns (events: seq<Event>)
    ensures Ordered(TWO_PACKETS, ByDts) && Runs(INITIAL, events, TWO_PACKETS, true)
    ensures var t := After(INITIAL, events, TWO_PACKETS, true);
      t.eof && t.queued && |t.ends| == 2 && t.ends[1].newest < t.newest
  {
    InitiallyReady();
    hide Runs, After, QueueOk, BothAdded, OneAdded, ClosedPiece, Next, Enabled, Formed;
    events := ReadBoth(INITIAL, []);
    events := StartOver(INITIAL, events);
    events := ReadBoth(INITIAL, events);
    var t := After(INITIAL, events, TWO_PACKETS, true);
    LastEnd(t, Join(0, Order(true, false)));
    Extend(INITIAL, events, FinishRead([Join(0, Order(true, false))]), TWO_PACKETS, true);
    events := events + [FinishRead([Join(0, Order(true, false))])];
  }

  lemma InitiallyReady()
    ensures ReadyToRead(INITIAL)
    ensures Runs(INITIAL, [], TWO_PACKETS, true) && After(INITIAL, [], TWO_PACKETS, true) == INITIAL
  {
  }
}
