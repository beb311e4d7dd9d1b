/** The stream recorder's per-stream queues (common/recorder.c): packets are held back until every
    stream can start, and then written up to the latest keyframe of their stream. */
module Recorder {
  import opened Timestamps

  const QUEUE_MAX_PACKETS: nat := 256
  const QUEUE_MIN_PACKETS: nat := 16

  datatype Packet = Packet(id: nat, keyframe: bool, pts: real)

  datatype Sink = Sink(video: bool, sub: bool, packets: seq<Packet>, discont: bool, properEof: bool)

  /** A packet in the output, and the stream it is of. */
  datatype Written = Written(sink: nat, packet: Packet)

  /** The recorder's state, with what happened since the last discontinuity: `segment` is how much
      was in the output then, and `accepted` what each stream has taken since. */
  datatype State = State(sinks: seq<Sink>, muxing: bool, fromStart: bool, file: seq<Written>,
                         segment: nat, accepted: seq<seq<Packet>>)

  /** A new recorder, for streams of which it is known whether they are video and subtitles. */
  function Created(streams: seq<(bool, bool)>): State {
    State(seq(|streams|, n requires 0 <= n < |streams| => Sink(streams[n].0, streams[n].1, [], false, false)),
          false, true, [], 0, seq(|streams|, _ => []))
  }

  // ---------- the steps ----------

  function MinPackets(s: Sink): nat {
    if s.video then QUEUE_MIN_PACKETS else 1
  }

  predicate Ready(s: Sink) {
    |s.packets| >= MinPackets(s)
  }

  /** A minimum over timestamps, before and after the first one was seen. */
  datatype Minimum = Infinity | Finite(ts: real)

  function MinOf(m: Minimum, ts: real): Minimum {
    if m.Infinity? || ts < m.ts then Finite(ts) else m
  }

  function PacketsMin(ps: seq<Packet>, m: Minimum): Minimum {
    if ps == [] then m else MinOf(PacketsMin(ps[..|ps| - 1], m), ps[|ps| - 1].pts)
  }

  /** The earliest timestamp among the packets that the streams need to start. */
  function MinTs(ss: seq<Sink>): Minimum {
    if ss == [] then Infinity
    else
      var s, m := ss[|ss| - 1], MinTs(ss[..|ss| - 1]);
      if Ready(s) then PacketsMin(s.packets[..MinPackets(s)], m) else m
  }

  /** Every stream has enough packets, has ended, or is sparse; and there is an earliest timestamp. */
  predicate CanStart(ss: seq<Sink>) {
    && (forall n :: 0 <= n < |ss| ==> Ready(ss[n]) || ss[n].properEof || ss[n].sub)
    && MinTs(ss).Finite?
  }

  lemma {:induction false} PacketsMinIs(ps: seq<Packet>, m: Minimum)
    ensures PacketsMin(ps, m).Finite? <==> m.Finite? || ps != []
  {
    if ps != [] {
      PacketsMinIs(ps[..|ps| - 1], m);
    }
  }

  lemma {:induction false} MinTsIs(ss: seq<Sink>)
    ensures MinTs(ss).Finite? <==> exists n :: 0 <= n < |ss| && Ready(ss[n])
  {
    if ss != [] {
      MinTsIs(ss[..|ss| - 1]);
      var s := ss[|ss| - 1];
      if Ready(s) {
        PacketsMinIs(s.packets[..MinPackets(s)], MinTs(ss[..|ss| - 1]));
      }
    }
  }

  /** A packet of which it is known when to show it. */
  predicate HasTimestamp(s: Sink) {
    exists i :: 0 <= i < |s.packets| && i < MinPackets(s) && s.packets[i].pts != NOPTS
  }

  /** What the test for an earliest timestamp is for: some stream that has enough packets has one
      with a timestamp. */
  predicate AnyTimestamp(ss: seq<Sink>) {
    exists n :: 0 <= n < |ss| && Ready(ss[n]) && HasTimestamp(ss[n])
  }

  /** The test takes a missing timestamp for one, so it only asks for some stream with enough
      packets. Recording starts without any timestamp exactly if there is such a stream, no stream
      is to be waited for, and none of them has a timestamp. */
  lemma TimestampsDoNotMatter(ss: seq<Sink>)
    ensures CanStart(ss) <==>
      && (forall n :: 0 <= n < |ss| ==> Ready(ss[n]) || ss[n].properEof || ss[n].sub)
      && exists n :: 0 <= n < |ss| && Ready(ss[n])
    ensures CanStart(ss) && !AnyTimestamp(ss) <==>
      && (forall n :: 0 <= n < |ss| ==> if Ready(ss[n]) then !HasTimestamp(ss[n]) else ss[n].properEof || ss[n].sub)
      && exists n :: 0 <= n < |ss| && Ready(ss[n])
  {
    MinTsIs(ss);
    hide Ready, HasTimestamp, MinTs;
  }

  /** After a discontinuity the stream waits for a keyframe. */
  predicate Skips(s: Sink, p: Packet) {
    s.discont && !p.keyframe
  }

  predicate Takes(s: Sink, p: Packet) {
    !Skips(s, p) && |s.packets| < QUEUE_MAX_PACKETS
  }

  /** Position of the latest keyframe, or 0. */
  function SafeCount(ps: seq<Packet>): (c: nat)
    ensures c < |ps| || c == 0
    ensures c > 0 ==> ps[c].keyframe
    ensures forall i :: c < i < |ps| ==> !ps[i].keyframe
  {
    if ps == [] then 0
    else if ps[|ps| - 1].keyframe then |ps| - 1
    else SafeCount(ps[..|ps| - 1])
  }

  function Tagged(n: nat, ps: seq<Packet>): (ws: seq<Written>)
    ensures |ws| == |ps|
  {
    seq(|ps|, i requires 0 <= i < |ps| => Written(n, ps[i]))
  }

  /** Writes what can be written of stream `n`. */
  function Muxed(t: State, n: nat, force: bool): State
    requires n < |t.sinks|
  {
    var ps := t.sinks[n].packets;
    if !t.muxing then t
    else
      var c := if force then |ps| else SafeCount(ps);
      t.(sinks := t.sinks[n := t.sinks[n].(packets := ps[c..])], file := t.file + Tagged(n, ps[..c]))
  }

  function Restarted(t: State): State {
    t.(muxing := t.muxing || CanStart(t.sinks))
  }

  function Appended(t: State, n: nat, p: Packet): State
    requires n < |t.sinks| == |t.accepted|
  {
    t.(sinks := t.sinks[n := t.sinks[n].(discont := false, packets := t.sinks[n].packets + [p])],
       accepted := t.accepted[n := t.accepted[n] + [p]])
  }

  function Fed(t: State, n: nat, p: Packet): State
    requires n < |t.sinks| == |t.accepted|
  {
    if Skips(t.sinks[n], p) then t
    else if !Takes(t.sinks[n], p) then t.(sinks := t.sinks[n := t.sinks[n].(discont := false)])
    else Muxed(Restarted(Appended(t, n, p)), n, false)
  }

  function Ended(t: State, n: nat): State
    requires n < |t.sinks|
  {
    Muxed(Restarted(t.(sinks := t.sinks[n := t.sinks[n].(properEof := true)])), n, false)
  }

  function Flushed(ss: seq<Sink>): (r: seq<Sink>)
    ensures |r| == |ss|
  {
    seq(|ss|, n requires 0 <= n < |ss| => ss[n].(packets := []))
  }

  function Interrupted(t: State): State {
    State(seq(|t.sinks|, n requires 0 <= n < |t.sinks| =>
                t.sinks[n].(packets := [], discont := true, properEof := false)),
          false, false, t.file, |t.file|, seq(|t.sinks|, _ => []))
  }

  /** Ending the recording writes the rest of the first `n` streams, of those that have ended. */
  function Drained(t: State, n: nat): (r: State)
    requires n <= |t.sinks|
    ensures |r.sinks| == |t.sinks|
    decreases n
  {
    if n == 0 then t
    else
      var r := Drained(t, n - 1);
      if r.sinks[n - 1].properEof then Muxed(r, n - 1, true) else r
  }

  // ---------- what every step keeps ----------

  /** What of stream `n` was written. */
  function Of(ws: seq<Written>, n: nat): seq<Packet> {
    if ws == [] then []
    else Of(ws[..|ws| - 1], n) + if ws[|ws| - 1].sink == n then [ws[|ws| - 1].packet] else []
  }

  /** Since the last discontinuity, what was written of a stream and what it holds are what it
      took, in order; it holds no more than it may; and it started with a keyframe. */
  predicate SinkInv(t: State, n: nat)
    requires n < |t.sinks| == |t.accepted| && t.segment <= |t.file|
  {
    && Of(t.file[t.segment..], n) + t.sinks[n].packets == t.accepted[n]
    && |t.sinks[n].packets| <= QUEUE_MAX_PACKETS
    && (t.sinks[n].discont ==> t.accepted[n] == [])
    && (!t.fromStart && t.accepted[n] != [] ==> t.accepted[n][0].keyframe)
    && (!t.fromStart && t.accepted[n] == [] ==> t.sinks[n].discont)
  }

  predicate Inv(t: State) {
    && |t.sinks| == |t.accepted| && t.segment <= |t.file|
    && (!t.muxing ==> t.segment == |t.file|)
    && forall n :: 0 <= n < |t.sinks| ==> SinkInv(t, n)
  }

  lemma {:induction false} OfConcat(a: seq<Written>, b: seq<Written>, n: nat)
    ensures Of(a + b, n) == Of(a, n) + Of(b, n)
    decreases |b|
  {
    if b == [] {
      assert a + b == a;
    } else {
      OfConcat(a, b[..|b| - 1], n);
      assert (a + b)[..|a + b| - 1] == a + b[..|b| - 1];
    }
  }

  lemma {:induction false} OfTagged(k: nat, ps: seq<Packet>, n: nat)
    ensures Of(Tagged(k, ps), n) == if k == n then ps else []
    decreases |ps|
  {
    if ps != [] {
      OfTagged(k, ps[..|ps| - 1], n);
      assert Tagged(k, ps)[..|ps| - 1] == Tagged(k, ps[..|ps| - 1]);
    }
  }

  /** What writing part of stream `n`'s queue adds to each stream's output. */
  lemma MuxedOutput(file: seq<Written>, segment: nat, n: nat, ps: seq<Packet>, k: nat)
    requires segment <= |file|
    ensures Of((file + Tagged(n, ps))[segment..], k) == Of(file[segment..], k) + if k == n then ps else []
  {
    hide Tagged;
    assert (file + Tagged(n, ps))[segment..] == file[segment..] + Tagged(n, ps);
    OfConcat(file[segment..], Tagged(n, ps), k);
    OfTagged(n, ps, k);
  }

  lemma MuxedSink(t: State, n: nat, force: bool, k: nat)
    requires n < |t.sinks| && k < |t.sinks| == |t.accepted| && t.segment <= |t.file| && SinkInv(t, k) && t.muxing
    ensures SinkInv(Muxed(t, n, force), k)
    ensures k == n && force ==> Of(Muxed(t, n, force).file[t.segment..], n) == t.accepted[n]
  {
    var ps := t.sinks[n].packets;
    var c := if force then |ps| else SafeCount(ps);
    MuxedOutput(t.file, t.segment, n, ps[..c], k);
    SplitBehind(Of(t.file[t.segment..], k), ps, c);
    hide Of, Tagged, SafeCount;
  }

  lemma SplitBehind(was: seq<Packet>, ps: seq<Packet>, c: nat)
    requires c <= |ps|
    ensures was + ps[..c] + ps[c..] == was + ps && was + [] == was && (c == |ps| ==> ps[..c] == ps)
  {
    assert ps[..c] + ps[c..] == ps;
  }

  lemma MuxedKeeps(t: State, n: nat, force: bool)
    requires Inv(t) && n < |t.sinks|
    ensures Inv(Muxed(t, n, force)) && Muxed(t, n, force).accepted == t.accepted
    ensures t.muxing && force ==> Of(Muxed(t, n, force).file[t.segment..], n) == t.accepted[n]
  {
    if t.muxing {
      forall k | 0 <= k < |t.sinks| ensures SinkInv(Muxed(t, n, force), k) {
        MuxedSink(t, n, force, k);
      }
      MuxedSink(t, n, force, n);
      hide SinkInv;
    }
  }

  lemma AppendedKeeps(t: State, n: nat, p: Packet)
    requires Inv(t) && n < |t.sinks| && Takes(t.sinks[n], p)
    ensures Inv(Appended(t, n, p))
  {
    hide Of;
    var r := Appended(t, n, p);
    forall k | 0 <= k < |t.sinks| ensures SinkInv(r, k) {
      assert SinkInv(t, k);
    }
  }

  lemma RestartedKeeps(t: State)
    requires Inv(t)
    ensures Inv(Restarted(t))
  {
    hide Of, CanStart;
    forall k | 0 <= k < |t.sinks| ensures SinkInv(Restarted(t), k) {
      assert SinkInv(t, k);
    }
  }

  /** Everything before the latest keyframe was written: none waits behind another packet. */
  predicate Flowing(s: Sink) {
    forall i :: 0 < i < |s.packets| ==> !s.packets[i].keyframe
  }

  lemma MuxedFlows(t: State, n: nat)
    requires n < |t.sinks| && t.muxing
    ensures Flowing(Muxed(t, n, false).sinks[n])
  {
  }

  /** Feeding keeps the order of every stream. While recording, no keyframe of the stream is left
      behind another packet afterwards if and only if the packet was taken or none was before: a
      packet that is skipped or refused writes nothing. */
  lemma FedKeeps(t: State, n: nat, p: Packet)
    requires Inv(t) && n < |t.sinks|
    ensures var r := Fed(t, n, p);
      && Inv(r) && |r.sinks| == |t.sinks|
      && r.accepted == (if Takes(t.sinks[n], p) then t.accepted[n := t.accepted[n] + [p]] else t.accepted)
      && (r.muxing ==> (Flowing(r.sinks[n]) <==> Takes(t.sinks[n], p) || Flowing(t.sinks[n])))
  {
    assert SinkInv(t, n);
    if Takes(t.sinks[n], p) {
      AppendedKeeps(t, n, p);
      var u := Restarted(Appended(t, n, p));
      RestartedKeeps(Appended(t, n, p));
      MuxedKeeps(u, n, false);
      if u.muxing {
        MuxedFlows(u, n);
      }
    } else {
      FullKeeps(t, n, p);
    }
  }

  /** A full queue never belongs to a stream that still waits for its first keyframe. */
  lemma FullKeeps(t: State, n: nat, p: Packet)
    requires Inv(t) && n < |t.sinks| && !Takes(t.sinks[n], p)
    ensures Fed(t, n, p) == t
  {
    assert SinkInv(t, n);
    if !Skips(t.sinks[n], p) {
      assert !t.sinks[n].discont;
      assert t.sinks[n := t.sinks[n].(discont := false)] == t.sinks;
    }
  }

  lemma EndedKeeps(t: State, n: nat)
    requires Inv(t) && n < |t.sinks|
    ensures Inv(Ended(t, n)) && Ended(t, n).accepted == t.accepted && |Ended(t, n).sinks| == |t.sinks|
  {
    hide Of;
    var u := t.(sinks := t.sinks[n := t.sinks[n].(properEof := true)]);
    forall k | 0 <= k < |t.sinks| ensures SinkInv(u, k) {
      assert SinkInv(t, k);
    }
    RestartedKeeps(u);
    MuxedKeeps(Restarted(u), n, false);
  }

  lemma InterruptedKeeps(t: State)
    requires Inv(t)
    ensures Inv(Interrupted(t)) && |Interrupted(t).sinks| == |t.sinks|
  {
    var r := Interrupted(t);
    assert r.file[r.segment..] == [];
    forall k | 0 <= k < |t.sinks| ensures SinkInv(r, k) {
    }
  }

  // ---------- runs ----------

  datatype Event = Feed(sink: nat, packet: Packet) | Eof(sink: nat) | Discontinuity

  function Step(t: State, e: Event): State
    requires Inv(t)
    requires e.Feed? || e.Eof? ==> e.sink < |t.sinks|
  {
    match e
    case Feed(n, p) => Fed(t, n, p)
    case Eof(n) => Ended(t, n)
    case Discontinuity => Interrupted(t)
  }

  lemma StepKeeps(t: State, e: Event)
    requires Inv(t) && (e.Feed? || e.Eof? ==> e.sink < |t.sinks|)
    ensures Inv(Step(t, e)) && |Step(t, e).sinks| == |t.sinks|
  {
    match e {
      case Feed(n, p) => FedKeeps(t, n, p);
      case Eof(n) => EndedKeeps(t, n);
      case Discontinuity => InterruptedKeeps(t);
    }
  }

  predicate ForSinks(events: seq<Event>, count: nat) {
    forall i :: 0 <= i < |events| && !events[i].Discontinuity? ==> events[i].sink < count
  }

  ghost predicate IsRun(trace: seq<State>, events: seq<Event>) {
    && |trace| == |events| + 1 && Inv(trace[0]) && ForSinks(events, |trace[0].sinks|)
    && forall i :: 0 <= i < |events| ==> StepsTo(trace[i], events[i], trace[i + 1])
  }

  ghost predicate StepsTo(t: State, e: Event, u: State) {
    Inv(t) && (e.Feed? || e.Eof? ==> e.sink < |t.sinks|) ==> u == Step(t, e)
  }

  /** Over every run: nothing a stream took since the last discontinuity is lost, duplicated or
      reordered between the output and its queue. */
  lemma {:induction false} EveryRunKeepsOrder(trace: seq<State>, events: seq<Event>, i: nat)
    requires IsRun(trace, events) && i < |trace|
    ensures Inv(trace[i]) && |trace[i].sinks| == |trace[0].sinks|
  {
    hide Inv, Step;
    if i > 0 {
      EveryRunKeepsOrder(trace, events, i - 1);
      assert StepsTo(trace[i - 1], events[i - 1], trace[i]);
      StepKeeps(trace[i - 1], events[i - 1]);
    }
  }

  // ---------- when it records ----------

  /** The stream has the packets it needs to start: 16 of video, one of anything else. */
  predicate HasEnough(s: Sink) {
    |s.packets| >= if s.video then 16 else 1
  }

  /** No stream is to be waited for, and some stream has something to start with. */
  predicate Everyone(ss: seq<Sink>) {
    && (forall n :: 0 <= n < |ss| ==> HasEnough(ss[n]) || ss[n].properEof || ss[n].sub)
    && exists n :: 0 <= n < |ss| && HasEnough(ss[n])
  }

  lemma EveryoneStarts(ss: seq<Sink>)
    ensures CanStart(ss) <==> Everyone(ss)
  {
    TimestampsDoNotMatter(ss);
    assert forall n :: 0 <= n < |ss| ==> (Ready(ss[n]) <==> HasEnough(ss[n]));
    hide CanStart, Ready, HasEnough;
  }

  /** What a packet does, in full: it is taken exactly if there is room for it and the stream does not
      wait for a keyframe, or it is one; that starts the recording as soon as everyone is there; before that
      nothing is written. */
  lemma FeedIs(t: State, n: nat, p: Packet)
    requires Inv(t) && n < |t.sinks|
    ensures var r, s := Step(t, Feed(n, p)), t.sinks[n];
      var taken := (!s.discont || p.keyframe) && |s.packets| < 256;
      && (!taken ==> r == t)
      && (taken ==>
            && r.accepted == t.accepted[n := t.accepted[n] + [p]] && |r.sinks| == |t.sinks|
            && (r.muxing <==> t.muxing || Everyone(t.sinks[n := s.(discont := false, packets := s.packets + [p])]))
            && (!r.muxing ==> r.file == t.file) && r.segment == t.segment
            && r.sinks[n].(packets := s.packets) == s.(discont := false)
            && forall k :: 0 <= k < |t.sinks| && k != n ==> r.sinks[k] == t.sinks[k])
  {
    hide Everyone, CanStart, SafeCount, Tagged, Of;
    if Takes(t.sinks[n], p) {
      EveryoneStarts(Appended(t, n, p).sinks);
    } else {
      FullKeeps(t, n, p);
    }
  }

  /** And the end of a stream: it is remembered, and nobody waits for the stream any more. */
  lemma EofIs(t: State, n: nat)
    requires Inv(t) && n < |t.sinks|
    ensures var r := Step(t, Eof(n));
      && r.accepted == t.accepted && |r.sinks| == |t.sinks| && r.sinks[n].properEof && r.segment == t.segment
      && (r.muxing <==> t.muxing || Everyone(t.sinks[n := t.sinks[n].(properEof := true)]))
      && (!r.muxing ==> r.file == t.file)
      && forall k :: 0 <= k < |t.sinks| && k != n ==> r.sinks[k] == t.sinks[k]
  {
    hide Everyone, CanStart, SafeCount, Tagged, Of;
    EveryoneStarts(t.sinks[n := t.sinks[n].(properEof := true)]);
  }

  /** And a discontinuity: recording stops, and every stream starts over. */
  lemma DiscontinuityIs(t: State)
    requires Inv(t)
    ensures var r := Step(t, Discontinuity);
      && !r.muxing && r.file == t.file && r.segment == |t.file| && |r.sinks| == |t.sinks|
      && forall k :: 0 <= k < |t.sinks| ==>
           r.sinks[k] == t.sinks[k].(packets := [], discont := true, properEof := false)
  {
  }

  /** Over every run without a discontinuity, a stream counts as properly ended exactly if it did or its
      end was seen. */
  lemma {:induction false} EndIsRemembered(trace: seq<State>, events: seq<Event>, i: nat, j: nat, n: nat)
    requires IsRun(trace, events) && i <= j < |trace| && n < |trace[0].sinks| && Uninterrupted(events[i..j])
    ensures |trace[i].sinks| == |trace[j].sinks| == |trace[0].sinks|
    ensures trace[j].sinks[n].properEof <==> trace[i].sinks[n].properEof || Eof(n) in events[i..j]
    decreases j
  {
    hide Inv, Step, Everyone;
    EveryRunKeepsOrder(trace, events, i);
    EveryRunKeepsOrder(trace, events, j);
    if i < j {
      assert events[i..j] == events[i..j - 1] + [events[j - 1]] && events[i..j - 1] == events[i..j][..j - 1 - i];
      EndIsRemembered(trace, events, i, j - 1, n);
      EveryRunKeepsOrder(trace, events, j - 1);
      assert StepsTo(trace[j - 1], events[j - 1], trace[j]);
      assert !events[i..j][j - 1 - i].Discontinuity?;
      match events[j - 1] {
        case Feed(k, p) => FeedIs(trace[j - 1], k, p);
        case Eof(k) => EofIs(trace[j - 1], k);
      }
    }
  }

  // ---------- after a discontinuity ----------

  function FedAll(t: State, n: nat, ps: seq<Packet>): (r: State)
    requires Inv(t) && n < |t.sinks|
    ensures Inv(r) && |r.sinks| == |t.sinks|
    decreases |ps|
  {
    if ps == [] then t
    else
      FedKeeps(t, n, ps[0]);
      FedAll(Fed(t, n, ps[0]), n, ps[1..])
  }

  function FromKeyframe(ps: seq<Packet>): seq<Packet> {
    if ps == [] || ps[0].keyframe then ps else FromKeyframe(ps[1..])
  }

  lemma HeldIsTaken(t: State, n: nat)
    requires Inv(t) && n < |t.sinks|
    ensures |t.sinks[n].packets| <= |t.accepted[n]| && (t.sinks[n].discont ==> t.accepted[n] == [])
  {
    assert SinkInv(t, n);
    hide Of;
  }

  lemma TakesOne(t: State, n: nat, p: Packet)
    requires Inv(t) && n < |t.sinks| && (!t.sinks[n].discont || p.keyframe) && |t.accepted[n]| < QUEUE_MAX_PACKETS
    ensures var r := Fed(t, n, p);
      && Inv(r) && |r.sinks| == |t.sinks| && !r.sinks[n].discont && r.accepted[n] == t.accepted[n] + [p]
  {
    HeldIsTaken(t, n);
    FeedIs(t, n, p);
    FedKeeps(t, n, p);
    hide Inv, Fed, Everyone;
  }

  lemma {:induction false} AllAreTaken(t: State, n: nat, ps: seq<Packet>)
    requires Inv(t) && n < |t.sinks| && !t.sinks[n].discont && |t.accepted[n]| + |ps| <= QUEUE_MAX_PACKETS
    ensures FedAll(t, n, ps).accepted[n] == t.accepted[n] + ps
    decreases |ps|
  {
    hide SinkInv, Fed;
    if ps == [] {
      assert t.accepted[n] + ps == t.accepted[n];
    } else {
      TakesOne(t, n, ps[0]);
      AllAreTaken(Fed(t, n, ps[0]), n, ps[1..]);
      assert t.accepted[n] + [ps[0]] + ps[1..] == t.accepted[n] + ps;
    }
  }

  /** A stream that waits for a keyframe takes exactly the packets from the first keyframe on, as many as
      the queue holds at least. */
  lemma {:induction false} ResumesAtKeyframe(t: State, n: nat, ps: seq<Packet>)
    requires Inv(t) && n < |t.sinks| && t.sinks[n].discont && |ps| <= QUEUE_MAX_PACKETS
    ensures FedAll(t, n, ps).accepted[n] == FromKeyframe(ps)
    decreases |ps|
  {
    HeldIsTaken(t, n);
    if ps != [] {
      FeedIs(t, n, ps[0]);
      FedKeeps(t, n, ps[0]);
      hide SinkInv, Fed, Everyone;
      if ps[0].keyframe {
        TakesOne(t, n, ps[0]);
        AllAreTaken(Fed(t, n, ps[0]), n, ps[1..]);
        assert [] + [ps[0]] + ps[1..] == ps;
      } else {
        ResumesAtKeyframe(t, n, ps[1..]);
      }
    }
  }

  // ---------- full queues ----------

  predicate Full(s: Sink) {
    |s.packets| >= QUEUE_MAX_PACKETS
  }

  /** The queue is full and yet holds packets that could have been written. */
  predicate Overrun(s: Sink) {
    Full(s) && !Flowing(s)
  }

  /** One event, while recording: only the end of the very stream writes what an overrun queue
      holds, and no queue becomes overrun. */
  lemma OverrunStep(t: State, e: Event, n: nat)
    requires Inv(t) && t.muxing && !e.Discontinuity? && e.sink < |t.sinks| && n < |t.sinks|
    ensures var r := Step(t, e);
      r.muxing && |r.sinks| == |t.sinks| && (Overrun(r.sinks[n]) <==> Overrun(t.sinks[n]) && e != Eof(n))
  {
    hide Of, SafeCount, SinkInv;
    match e {
      case Feed(k, p) =>
        if Takes(t.sinks[k], p) {
          MuxedFlows(Restarted(Appended(t, k, p)), k);
        } else {
          FullKeeps(t, k, p);
        }
      case Eof(k) =>
        MuxedFlows(Restarted(t.(sinks := t.sinks[k := t.sinks[k].(properEof := true)])), k);
    }
  }

  predicate OnlyFeeds(events: seq<Event>) {
    forall i :: 0 <= i < |events| ==> events[i].Feed?
  }

  predicate Uninterrupted(events: seq<Event>) {
    forall i :: 0 <= i < |events| ==> !events[i].Discontinuity?
  }

  /** Over every run: from when recording started until the next discontinuity, a queue is overrun
      if and only if it already was at the start and its stream has not ended since. In
      particular, a stream that had room then is never overrun. */
  lemma {:induction false} OverrunFromTheStart(trace: seq<State>, events: seq<Event>, i: nat, j: nat, n: nat)
    requires IsRun(trace, events) && i <= j < |trace| && n < |trace[0].sinks|
    requires trace[i].muxing && Uninterrupted(events[i..j])
    ensures |trace[i].sinks| == |trace[j].sinks| == |trace[0].sinks| && trace[j].muxing
    ensures Overrun(trace[j].sinks[n]) <==> Overrun(trace[i].sinks[n]) && Eof(n) !in events[i..j]
    decreases j
  {
    hide Inv, Step, Overrun;
    EveryRunKeepsOrder(trace, events, i);
    EveryRunKeepsOrder(trace, events, j);
    if i < j {
      assert events[i..j] == events[i..j - 1] + [events[j - 1]] && events[i..j - 1] == events[i..j][..j - 1 - i];
      OverrunFromTheStart(trace, events, i, j - 1, n);
      EveryRunKeepsOrder(trace, events, j - 1);
      assert StepsTo(trace[j - 1], events[j - 1], trace[j]);
      assert !events[i..j][j - 1 - i].Discontinuity?;
      OverrunStep(trace[j - 1], events[j - 1], n);
    }
  }

  /** While recording, a full queue stays as it is whatever is fed to whichever stream: nothing of
      its stream is taken or written any more, overrun or not. */
  lemma {:induction false} FullIsStuck(trace: seq<State>, events: seq<Event>, i: nat, j: nat, n: nat)
    requires IsRun(trace, events) && i <= j < |trace| && n < |trace[0].sinks|
    requires |trace[i].sinks| == |trace[0].sinks| && trace[i].muxing && Full(trace[i].sinks[n])
    requires OnlyFeeds(events[i..j])
    ensures Inv(trace[i]) && Inv(trace[j]) && |trace[j].sinks| == |trace[0].sinks| && trace[j].muxing
    ensures trace[j].sinks[n] == trace[i].sinks[n] && trace[j].accepted[n] == trace[i].accepted[n]
    ensures Of(trace[j].file[trace[j].segment..], n) == Of(trace[i].file[trace[i].segment..], n)
    decreases j
  {
    hide Of, Step, Full, SinkInv;
    EveryRunKeepsOrder(trace, events, i);
    if i < j {
      assert events[i..j - 1] == events[i..j][..j - 1 - i];
      FullIsStuck(trace, events, i, j - 1, n);
      assert StepsTo(trace[j - 1], events[j - 1], trace[j]);
      assert events[i..j][j - 1 - i].Feed?;
      StepKeeps(trace[j - 1], events[j - 1]);
      FeedLeavesFull(trace[j - 1], events[j - 1], n);
    }
  }

  lemma FeedLeavesFull(t: State, e: Event, n: nat)
    requires Inv(t) && t.muxing && e.Feed? && e.sink < |t.sinks| && n < |t.sinks| && Full(t.sinks[n])
    ensures var r := Step(t, e);
      && r.muxing && |r.sinks| == |r.accepted| == |t.sinks| && r.segment == t.segment <= |r.file|
      && r.sinks[n] == t.sinks[n] && r.accepted[n] == t.accepted[n]
      && Of(r.file[r.segment..], n) == Of(t.file[t.segment..], n)
  {
    hide Of, SafeCount, Tagged;
    if Takes(t.sinks[e.sink], e.packet) {
      var u := Restarted(Appended(t, e.sink, e.packet));
      var ps := u.sinks[e.sink].packets;
      MuxedOutput(t.file, t.segment, e.sink, ps[..SafeCount(ps)], n);
      assert Of(t.file[t.segment..], n) + [] == Of(t.file[t.segment..], n);
    } else {
      FullKeeps(t, e.sink, e.packet);
    }
  }

  /** The end of the stream makes room in a full queue exactly if it was overrun. */
  lemma EndMakesRoom(t: State, n: nat)
    requires Inv(t) && n < |t.sinks| && t.muxing && Full(t.sinks[n])
    ensures !Full(Ended(t, n).sinks[n]) <==> Overrun(t.sinks[n])
  {
    assert SinkInv(t, n);
    var ps := t.sinks[n].packets;
    if SafeCount(ps) == 0 {
      assert ps[0..] == ps;
    }
  }

  /** Video that comes long before the first audio packet. */
  function EarlyVideo(k: nat): (ps: seq<Packet>)
    ensures |ps| == k
  {
    seq(k, i requires 0 <= i < k => Packet(i, i == 0 || i == 100, NOPTS))
  }

  function BeforeAudio(k: nat): State {
    State([Sink(true, false, EarlyVideo(k), false, false), Sink(false, false, [], false, false)],
          false, true, [], 0, [EarlyVideo(k), []])
  }

  lemma EarlyVideoTaken(k: nat)
    requires k < QUEUE_MAX_PACKETS
    ensures Fed(BeforeAudio(k), 0, Packet(k, k == 0 || k == 100, NOPTS)) == BeforeAudio(k + 1)
  {
    var p := Packet(k, k == 0 || k == 100, NOPTS);
    assert EarlyVideo(k) + [p] == EarlyVideo(k + 1);
    assert !Ready(Appended(BeforeAudio(k), 0, p).sinks[1]);
    assert !CanStart(Appended(BeforeAudio(k), 0, p).sinks);
    assert Appended(BeforeAudio(k), 0, p) == BeforeAudio(k + 1);
  }

  /** Queues do get overrun: 256 video packets with two keyframes, and then one of audio. */
  lemma AQueueIsOverrun() returns (trace: seq<State>, events: seq<Event>)
    ensures IsRun(trace, events) && OnlyFeeds(events) && trace[0] == Created([(true, false), (false, false)])
    ensures var t := trace[|trace| - 1]; t.muxing && |t.sinks| == 2 && Overrun(t.sinks[0])
  {
    var audio := Packet(0, true, NOPTS);
    var full := BeforeAudio(QUEUE_MAX_PACKETS);
    events := seq(QUEUE_MAX_PACKETS, k requires 0 <= k < QUEUE_MAX_PACKETS =>
                    Feed(0, Packet(k, k == 0 || k == 100, NOPTS)))
              + [Feed(1, audio)];
    var last := Fed(full, 1, audio);
    trace := seq(QUEUE_MAX_PACKETS + 1, k requires 0 <= k <= QUEUE_MAX_PACKETS => BeforeAudio(k)) + [last];
    InitialOk();
    hide Inv, Fed;
    forall i | 0 <= i < |events| ensures StepsTo(trace[i], events[i], trace[i + 1]) {
      if i < QUEUE_MAX_PACKETS {
        EarlyVideoTaken(i);
      }
    }
    AudioStarts();
  }

  lemma InitialOk()
    ensures Inv(BeforeAudio(0)) && BeforeAudio(0) == Created([(true, false), (false, false)])
  {
    assert BeforeAudio(0).file[0..] == [] && EarlyVideo(0) == [];
    assert BeforeAudio(0).sinks == Created([(true, false), (false, false)]).sinks;
    assert BeforeAudio(0).accepted == Created([(true, false), (false, false)]).accepted;
  }

  lemma AudioStarts()
    ensures var t := Fed(BeforeAudio(QUEUE_MAX_PACKETS), 1, Packet(0, true, NOPTS));
      t.muxing && |t.sinks| == 2 && Overrun(t.sinks[0])
  {
    var full := BeforeAudio(QUEUE_MAX_PACKETS);
    var a := Appended(full, 1, Packet(0, true, NOPTS));
    assert Ready(a.sinks[0]) && Ready(a.sinks[1]);
    TimestampsDoNotMatter(a.sinks);
    assert full.sinks[0].packets[100].keyframe;
    hide SafeCount, Tagged;
  }

  lemma {:induction false} DrainedKeeps(t: State, n: nat, k: nat)
    requires Inv(t) && n <= |t.sinks| && k < |t.sinks|
    ensures var r := Drained(t, n);
      && Inv(r) && r.accepted == t.accepted && r.segment == t.segment && r.muxing == t.muxing
      && r.sinks[k].properEof == t.sinks[k].properEof
      && (t.muxing && k < n && t.sinks[k].properEof ==> r.sinks[k].packets == [])
      && (k >= n || !t.sinks[k].properEof ==> r.sinks[k] == t.sinks[k])
    decreases n
  {
    hide Inv, Tagged;
    if n > 0 {
      DrainedKeeps(t, n - 1, k);
      if n - 1 != k {
        DrainedKeeps(t, n - 1, n - 1);
      }
      MuxedKeeps(Drained(t, n - 1), n - 1, true);
    }
  }

  /** At the end, a stream that has ended while recording has everything it took in the output; any
      other stream loses exactly what is still in its queue. */
  lemma NothingLostAtEnd(t: State, k: nat)
    requires Inv(t) && k < |t.sinks|
    ensures var r := Drained(t, |t.sinks|);
      && r.segment <= |r.file| && k < |r.accepted| && k < |t.accepted|
      && (t.muxing && t.sinks[k].properEof ==> Of(r.file[r.segment..], k) == t.accepted[k])
      && (!(t.muxing && t.sinks[k].properEof) ==> Of(r.file[r.segment..], k) + t.sinks[k].packets == t.accepted[k])
  {
    DrainedKeeps(t, |t.sinks|, k);
    var r := Drained(t, |t.sinks|);
    assert SinkInv(r, k);
    if !t.muxing {
      NotMuxingStays(t, |t.sinks|);
    }
  }

  lemma {:induction false} NotMuxingStays(t: State, n: nat)
    requires !t.muxing && n <= |t.sinks|
    ensures Drained(t, n) == t
    decreases n
  {
    if n > 0 {
      NotMuxingStays(t, n - 1);
    }
  }

  // ---------- the recorder ----------

  class Recorder {
    var sinks: seq<Sink>
    var muxing: bool
    var fromStart: bool
    var file: seq<Written>
    ghost var segment: nat
    ghost var accepted: seq<seq<Packet>>

    ghost function Now(): State
      reads this
    {
      State(sinks, muxing, fromStart, file, segment, accepted)
    }

    ghost predicate Valid()
      reads this
    {
      Inv(Now())
    }

    constructor (streams: seq<(bool, bool)>)
      ensures Valid() && Now() == Created(streams)
    {
      sinks := seq(|streams|, n requires 0 <= n < |streams| => Sink(streams[n].0, streams[n].1, [], false, false));
      muxing, fromStart, file, segment := false, true, [], 0;
      accepted := seq(|streams|, _ => []);
    }

    method CountSafe(ps: seq<Packet>) returns (safe: nat)
      ensures safe == SafeCount(ps)
    {
      safe := 0;
      for n := 0 to |ps|
        invariant safe == SafeCount(ps[..n])
      {
        assert ps[..n + 1][..n] == ps[..n];
        if ps[n].keyframe {
          safe := n;
        }
      }
      assert ps[..|ps|] == ps;
    }

    /** mux_packets */
    method MuxPackets(n: nat, force: bool)
      requires Valid() && n < |sinks|
      modifies this
      ensures Now() == Muxed(old(Now()), n, force) && Valid()
    {
      MuxedKeeps(Now(), n, force);
      hide Inv;
      if !muxing || |sinks[n].packets| == 0 {
        assert muxing ==> Now() == Muxed(Now(), n, force) by {
          assert muxing ==> sinks[n := sinks[n].(packets := sinks[n].packets[0..])] == sinks;
          assert file + Tagged(n, []) == file;
        }
        return;
      }
      var ps := sinks[n].packets;
      var safe := CountSafe(ps);
      if force {
        safe := |ps|;
      }
      var i := 0;
      while i < safe
        invariant 0 <= i <= safe <= |ps|
        invariant file == old(file) + Tagged(n, ps[..i])
        invariant sinks == old(sinks) && muxing == old(muxing) && fromStart == old(fromStart)
        invariant segment == old(segment) && accepted == old(accepted)
      {
        assert Tagged(n, ps[..i + 1]) == Tagged(n, ps[..i]) + [Written(n, ps[i])];
        file := file + [Written(n, ps[i])];
        i := i + 1;
      }
      sinks := sinks[n := sinks[n].(packets := ps[safe..])];
    }

    static method MinPacket(ps: seq<Packet>, m: Minimum) returns (min: Minimum)
      ensures min == PacketsMin(ps, m)
    {
      min := m;
      for i := 0 to |ps|
        invariant min == PacketsMin(ps[..i], m)
      {
        assert ps[..i + 1][..i] == ps[..i];
        min := MinOf(min, ps[i].pts);
      }
      assert ps[..|ps|] == ps;
    }

    /** check_restart */
    method CheckRestart()
      requires Valid()
      modifies this`muxing
      ensures Now() == Restarted(old(Now())) && Valid()
    {
      RestartedKeeps(Now());
      hide Inv;
      if muxing {
        return;
      }
      var min := Infinity;
      for n := 0 to |sinks|
        invariant !muxing
        invariant forall k :: 0 <= k < n ==> Ready(sinks[k]) || sinks[k].properEof || sinks[k].sub
        invariant min == MinTs(sinks[..n])
      {
        assert sinks[..n + 1][..n] == sinks[..n];
        var count := if sinks[n].video then QUEUE_MIN_PACKETS else 1;
        if |sinks[n].packets| < count {
          if !sinks[n].properEof && !sinks[n].sub {
            return;
          }
          continue;
        }
        min := MinPacket(sinks[n].packets[..count], min);
      }
      assert sinks[..|sinks|] == sinks;
      if min.Infinity? {
        return;
      }
      muxing := true;
    }

    /** mp_recorder_feed_packet */
    method FeedPacket(n: nat, p: Packet)
      requires Valid() && n < |sinks|
      modifies this
      ensures Now() == Fed(old(Now()), n, p) && Valid()
    {
      FedKeeps(Now(), n, p);
      var rst := sinks[n];
      if rst.discont && !p.keyframe {
        return;
      }
      if |rst.packets| >= QUEUE_MAX_PACKETS {
        FullKeeps(Now(), n, p);
        sinks := sinks[n := rst.(discont := false)];
        return;
      }
      AppendedKeeps(Now(), n, p);
      hide Inv;
      sinks := sinks[n := rst.(discont := false, packets := rst.packets + [p])];
      accepted := accepted[n := accepted[n] + [p]];
      CheckRestart();
      MuxPackets(n, false);
    }

    method FeedEof(n: nat)
      requires Valid() && n < |sinks|
      modifies this
      ensures Now() == Ended(old(Now()), n) && Valid()
    {
      EndedKeeps(Now(), n);
      EofKeeps(Now(), n);
      hide Inv;
      sinks := sinks[n := sinks[n].(properEof := true)];
      CheckRestart();
      MuxPackets(n, false);
    }

    /** mp_recorder_mark_discontinuity */
    method MarkDiscontinuity()
      requires Valid()
      modifies this
      ensures Now() == Interrupted(old(Now())) && Valid()
    {
      InterruptedKeeps(Now());
      hide Inv;
      FlushPackets();
      var marked := sinks;
      for n := 0 to |sinks|
        invariant |marked| == |sinks| && sinks == Flushed(old(sinks)) && file == old(file)
        invariant forall k :: 0 <= k < n ==> marked[k] == sinks[k].(discont := true, properEof := false)
        invariant forall k :: n <= k < |sinks| ==> marked[k] == sinks[k]
      {
        marked := marked[n := marked[n].(discont := true, properEof := false)];
      }
      sinks, muxing, fromStart := marked, false, false;
      segment, accepted := |file|, seq(|sinks|, _ => []);
      assert Now().sinks == Interrupted(old(Now())).sinks;
    }

    method FlushPackets()
      modifies this`sinks
      ensures sinks == Flushed(old(sinks))
    {
      var flushed := sinks;
      for n := 0 to |sinks|
        invariant sinks == old(sinks) && |flushed| == |sinks|
        invariant forall k :: 0 <= k < n ==> flushed[k] == sinks[k].(packets := [])
        invariant forall k :: n <= k < |sinks| ==> flushed[k] == sinks[k]
      {
        flushed := flushed[n := flushed[n].(packets := [])];
      }
      sinks := flushed;
    }

    /** mp_recorder_destroy, of a recorder whose output could be opened. */
    method Destroy()
      requires Valid()
      modifies this
      ensures file == Drained(old(Now()), |old(sinks)|).file
      ensures sinks == Flushed(Drained(old(Now()), |old(sinks)|).sinks)
    {
      hide Inv;
      ghost var t := Now();
      for n := 0 to |sinks|
        invariant Valid() && |sinks| == |t.sinks| && Now() == Drained(t, n)
      {
        if sinks[n].properEof {
          MuxPackets(n, true);
        }
        assert Now() == Drained(t, n + 1);
      }
      FlushPackets();
    }
  }

  lemma EofKeeps(t: State, n: nat)
    requires Inv(t) && n < |t.sinks|
    ensures Inv(t.(sinks := t.sinks[n := t.sinks[n].(properEof := true)]))
  {
    hide Of;
    var u := t.(sinks := t.sinks[n := t.sinks[n].(properEof := true)]);
    forall k | 0 <= k < |t.sinks| ensures SinkInv(u, k) {
      assert SinkInv(t, k);
    }
  }
}
