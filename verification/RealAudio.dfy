/** De-interleaving RealAudio packets (the cook/atrac3 and ra_288 paths of handle_realaudio):
    sub-packets are scattered over a buffer, which is handed out once it is full. */
module RealAudio {
  import opened Octets

  datatype Codec = Cook | Ra288

  /** The stream's layout: `h` packets of `w` bytes fill the buffer; `sps` is the size of a
      sub-packet (cook) and `cfs` that of a coded frame (ra_288). */
  datatype Layout = Layout(codec: Codec, h: nat, w: nat, sps: nat, cfs: nat)

  predicate ValidLayout(l: Layout) {
    0 < l.h < 0x1_0000 && 0 < l.w < 0x1_0000 && 0 < l.sps < 0x1_0000 && 0 < l.cfs <= 0x4000_0000
  }

  /** Size of one piece, and how many of them a packet has. */
  function PieceSize(l: Layout): nat { if l.codec == Cook then l.sps else l.cfs }

  function Pieces(l: Layout): nat
    requires ValidLayout(l)
  {
    if l.codec == Cook then l.w / l.sps else l.h / 2
  }

  /** Which of the `h` interleaved positions packet number `r` has. */
  function Turn(h: nat, r: nat): nat {
    (h + 1) / 2 * (r % 2) + r / 2
  }

  /** Where piece `x` of packet `r` goes. */
  function Dest(l: Layout, r: nat, x: nat): nat {
    if l.codec == Cook then l.sps * (l.h * x + Turn(l.h, r)) else x * 2 * l.w + r * l.cfs
  }

  function Overwrite(b: seq<byte>, dst: nat, src: seq<byte>): (r: seq<byte>)
    requires dst + |src| <= |b|
    ensures |r| == |b|
  {
    b[..dst] + src + b[dst + |src|..]
  }

  /** The `k`th of the pieces of `s` bytes that `b` consists of; nothing past its end. */
  function SlotAt(b: seq<byte>, s: nat, k: nat): seq<byte> {
    if s * k + s <= |b| then b[s * k..s * k + s] else []
  }

  function Piece(l: Layout, p: seq<byte>, x: nat): seq<byte> {
    SlotAt(p, PieceSize(l), x)
  }

  /** Piece `x` can be copied: its place lies in the buffer and it lies in the packet. */
  predicate Copyable(l: Layout, size: nat, p: seq<byte>, r: nat, x: nat) {
    Dest(l, r, x) + PieceSize(l) <= size && PieceSize(l) * x + PieceSize(l) <= |p|
  }

  /** The buffer after the first `n` pieces of packet `r`, or those before one that does not fit. */
  function Stored(l: Layout, b: seq<byte>, p: seq<byte>, r: nat, n: nat): (s: seq<byte>)
    ensures |s| == |b|
  {
    if n == 0 then b
    else
      var s := Stored(l, b, p, r, n - 1);
      if AllCopyable(l, |b|, p, r, n) then
        assert Copyable(l, |b|, p, r, n - 1);
        Overwrite(s, Dest(l, r, n - 1), Piece(l, p, n - 1))
      else s
  }

  predicate AllCopyable(l: Layout, size: nat, p: seq<byte>, r: nat, n: nat) {
    forall x :: 0 <= x < n ==> Copyable(l, size, p, r, x)
  }

  /** A packet handed out; `pts` is only set where an original packet started, and the first of
      the packets handed out together is marked as keyframe. */
  datatype Output = Output(data: seq<byte>, pts: Pts, pos: int, keyframe: bool)
  datatype Pts = NoPts | Pts(value: real)

  /** The full buffer cut into frames of the piece size. */
  function Released(l: Layout, b: seq<byte>, times: seq<real>, pos: int): (out: seq<Output>)
    requires ValidLayout(l) && |b| == l.h * l.w && |times| == l.h
  {
    seq(|b| / PieceSize(l), k requires 0 <= k < |b| / PieceSize(l) => Frame(l, b, times, pos, k))
  }

  function Frame(l: Layout, b: seq<byte>, times: seq<real>, pos: int, k: nat): Output
    requires ValidLayout(l) && |b| == l.h * l.w && |times| == l.h && k < |b| / PieceSize(l)
  {
    FrameFits(l, |b|, k);
    Output(b[k * PieceSize(l)..k * PieceSize(l) + PieceSize(l)],
           if k * PieceSize(l) % l.w == 0 then Pts(times[k * PieceSize(l) / l.w]) else NoPts, pos + k, k == 0)
  }

  lemma Monotone(a: nat, b: nat, n: nat)
    requires a <= b
    ensures a * n <= b * n
  {
  }

  lemma {:induction false} FrameFits(l: Layout, size: nat, k: nat)
    requires ValidLayout(l) && size == l.h * l.w && k < size / PieceSize(l)
    ensures k * PieceSize(l) + PieceSize(l) <= size
    ensures k * PieceSize(l) / l.w < l.h
  {
    var s := PieceSize(l);
    Monotone(k + 1, size / s, s);
    assert size / s * s <= size;
    assert (k + 1) * s == k * s + s;
    SmallQuotient(k * s, l.w, l.h);
  }

  lemma SmallQuotient(a: nat, n: nat, m: nat)
    requires n > 0 && a < m * n
    ensures a / n < m
  {
    if a / n >= m {
      Monotone(m, a / n, n);
    }
  }

  class Track {
    const layout: Layout
    const buf: array<byte>
    const times: array<real>
    var count: nat     // packets in the buffer
    var lastPts: real

    ghost predicate Valid()
      reads this
    {
      ValidLayout(layout) && buf.Length == layout.h * layout.w && times.Length == layout.h && count < layout.h
    }

    constructor (l: Layout)
      requires ValidLayout(l)
      ensures Valid() && fresh(buf) && fresh(times) && layout == l && count == 0
    {
      layout, count, lastPts := l, 0, 0.0;
      buf := new byte[l.h * l.w](_ => 0);
      times := new real[l.h](_ => 0.0);
    }

    /** memcpy */
    method Copy(dst: nat, src: seq<byte>)
      requires dst + |src| <= buf.Length
      modifies buf
      ensures buf[..] == Overwrite(old(buf[..]), dst, src)
    {
      ghost var was := buf[..];
      for i := 0 to |src|
        invariant buf[..] == was[..dst] + src[..i] + was[dst + i..]
      {
        buf[dst + i] := src[i];
      }
      assert src[..|src|] == src;
    }

    /** Scatters the packet's pieces; stops at the first one that does not fit. */
    method Scatter(p: seq<byte>) returns (ok: bool)
      requires Valid()
      modifies buf
      ensures ok == AllCopyable(layout, buf.Length, p, count, Pieces(layout))
      ensures buf[..] == Stored(layout, old(buf[..]), p, count, Pieces(layout))
    {
      hide Dest, Overwrite;
      ghost var was := buf[..];
      var x, size := 0, PieceSize(layout);
      while x < Pieces(layout)
        invariant x <= Pieces(layout) && AllCopyable(layout, buf.Length, p, count, x)
        invariant buf[..] == Stored(layout, was, p, count, x)
      {
        var dst := Dest(layout, count, x);
        if dst + size > buf.Length || size * x + size > |p| {
          assert !Copyable(layout, buf.Length, p, count, x);
          StoredStops(layout, was, p, count, x, Pieces(layout));
          return false;
        }
        Copy(dst, p[size * x..size * x + size]);
        x := x + 1;
      }
      return true;
    }

    /** Takes one packet; hands out the buffer's frames once it is full. */
    method Feed(p: seq<byte>, pts: real, pos: int) returns (out: seq<Output>)
      requires Valid()
      modifies this, buf, times
      ensures Valid()
      ensures buf[..] == Stored(layout, old(buf[..]), p, old(count), Pieces(layout))
      ensures !AllCopyable(layout, buf.Length, p, old(count), Pieces(layout)) ==>
        out == [] && count == old(count) && times[..] == old(times[..]) && lastPts == old(lastPts)
      ensures AllCopyable(layout, buf.Length, p, old(count), Pieces(layout)) ==>
        && lastPts == pts
        && times[..] == old(times[..])[old(count) := if old(lastPts) == pts then 0.0 else pts]
        && count == (if old(count) + 1 == layout.h then 0 else old(count) + 1)
        && out == if count == 0 then Released(layout, buf[..], times[..], pos) else []
    {
      hide Stored, AllCopyable;
      out := [];
      var ok := Scatter(p);
      if !ok {
        return;
      }
      times[count] := if lastPts == pts then 0.0 else pts;
      lastPts := pts;
      count := count + 1;
      if count == layout.h {
        count := 0;
        out := Release(pos);
      }
    }

    method Release(pos: int) returns (out: seq<Output>)
      requires Valid()
      ensures out == Released(layout, buf[..], times[..], pos)
    {
      hide PieceSize;
      PiecePositive(layout);
      var size := PieceSize(layout);
      out := [];
      if size > buf.Length {
        assert buf.Length / size == 0;
        return;
      }
      for x := 0 to buf.Length / size
        invariant |out| == x
        invariant forall k :: 0 <= k < x ==> out[k] == Frame(layout, buf[..], times[..], pos, k)
      {
        FrameFits(layout, buf.Length, x);
        out := out + [Output(buf[x * size..x * size + size],
                             if x * size % layout.w == 0 then Pts(times[x * size / layout.w]) else NoPts,
                             pos + x, x == 0)];
      }
    }
  }

  lemma PiecePositive(l: Layout)
    requires ValidLayout(l)
    ensures PieceSize(l) > 0
  {
  }

  /** Nothing more is stored after a piece that does not fit. */
  lemma {:induction false} StoredStops(l: Layout, b: seq<byte>, p: seq<byte>, r: nat, x: nat, n: nat)
    requires x < n && !Copyable(l, |b|, p, r, x)
    ensures Stored(l, b, p, r, n) == Stored(l, b, p, r, x)
    decreases n
  {
    hide Copyable;
    if n > x + 1 {
      StoredStops(l, b, p, r, x, n - 1);
    }
  }

  // ---------- where every piece ends up ----------

  /** The layouts for which pieces tile the buffer: always for cook, and for ra_288 if frames come
      in pairs of rows that fill two packets. */
  predicate Tiles(l: Layout) {
    l.codec == Cook || (l.h % 2 == 0 && 2 * l.w == l.h * l.cfs)
  }

  /** The position of packet `r` in every row of `h` pieces, and which packet has a position. */
  function Position(l: Layout, r: nat): nat {
    if l.codec == Cook then Turn(l.h, r) else r
  }

  function PacketAt(l: Layout, o: nat): nat {
    if l.codec == Ra288 then o
    else if o < (l.h + 1) / 2 then 2 * o
    else 2 * (o - (l.h + 1) / 2) + 1
  }

  function Slot(l: Layout, r: nat, x: nat): nat {
    l.h * x + Position(l, r)
  }

  lemma TurnTaken(h: nat, r: nat, o: nat)
    ensures r < h ==> Turn(h, r) < h && (Turn(h, r) < (h + 1) / 2 <==> r % 2 == 0)
    ensures r % 2 == 0 ==> Turn(h, r) * 2 == r
    ensures r % 2 == 1 ==> (Turn(h, r) - (h + 1) / 2) * 2 + 1 == r
  {
    assert r % 2 == 0 ==> (h + 1) / 2 * (r % 2) == 0;
    assert r % 2 == 1 ==> (h + 1) / 2 * (r % 2) == (h + 1) / 2;
  }

  lemma {:induction false} PositionsAreTaken(l: Layout, r: nat, o: nat)
    requires ValidLayout(l)
    ensures r < l.h ==> Position(l, r) < l.h && PacketAt(l, Position(l, r)) == r
    ensures o < l.h ==> PacketAt(l, o) < l.h && Position(l, PacketAt(l, o)) == o
  {
    hide Turn;
    TurnTaken(l.h, r, o);
    TurnTaken(l.h, PacketAt(l, o), o);
  }

  lemma {:induction false} RowOf(h: nat, x: nat, o: nat)
    requires o < h
    ensures (h * x + o) / h == x && (h * x + o) % h == o
  {
    SmallQuotient(h * x + o, h, x + 1) by {
      assert (x + 1) * h == h * x + h;
    }
    QuotientAtLeast(h * x + o, h, x);
    assert (h * x + o) / h * h + (h * x + o) % h == h * x + o;
  }

  lemma {:induction false} QuotientAtLeast(a: nat, n: nat, m: nat)
    requires n > 0 && n * m <= a
    ensures a / n >= m
  {
    assert a < a / n * n + n;
    assert a / n * n + n == (a / n + 1) * n;
    if a / n < m {
      Monotone(a / n + 1, m, n);
    }
  }

  /** `k` numbers one of the slots pieces go to. */
  predicate IsSlot(l: Layout, k: nat)
    requires ValidLayout(l)
  {
    k < l.h * Pieces(l)
  }

  /** The packet and the piece that belong into slot `k`. */
  function Owner(l: Layout, k: nat): nat
    requires ValidLayout(l)
  {
    PacketAt(l, k % l.h)
  }

  function Row(l: Layout, k: nat): nat
    requires ValidLayout(l)
  {
    k / l.h
  }

  /** The map from packets and pieces to slots is a bijection. */
  lemma {:induction false} SlotsAreTakenOnce(l: Layout, k: nat, r: nat, x: nat)
    requires ValidLayout(l)
    ensures IsSlot(l, k) ==> Owner(l, k) < l.h && Row(l, k) < Pieces(l) && Slot(l, Owner(l, k), Row(l, k)) == k
    ensures r < l.h && x < Pieces(l) ==>
      IsSlot(l, Slot(l, r, x)) && Owner(l, Slot(l, r, x)) == r && Row(l, Slot(l, r, x)) == x
  {
    hide Turn, Pieces;
    PositionsAreTaken(l, r, k % l.h);
    if IsSlot(l, k) {
      SmallQuotient(k, l.h, Pieces(l));
      assert k == l.h * (k / l.h) + k % l.h;
    }
    if r < l.h && x < Pieces(l) {
      RowOf(l.h, x, Position(l, r));
      Monotone(x + 1, Pieces(l), l.h);
      assert (x + 1) * l.h == l.h * x + l.h;
    }
  }

  /** Where pieces tile, a piece's place is its slot. */
  lemma DestIsSlot(l: Layout, r: nat, x: nat)
    requires ValidLayout(l) && Tiles(l)
    ensures Dest(l, r, x) == PieceSize(l) * Slot(l, r, x)
  {
    hide Turn;
    if l.codec == Ra288 {
      assert x * 2 * l.w == x * (2 * l.w) == x * (l.h * l.cfs);
      Rearrange(x, l.h, l.cfs, r);
    }
  }

  lemma Rearrange(x: nat, h: nat, c: nat, r: nat)
    ensures x * (h * c) + r * c == c * (h * x + r)
  {
    assert x * (h * c) == c * (h * x);
  }

  lemma SlotsFit(l: Layout)
    requires ValidLayout(l) && Tiles(l)
    ensures l.h * Pieces(l) * PieceSize(l) <= l.h * l.w
    ensures l.codec == Ra288 ==> l.h * Pieces(l) * PieceSize(l) == l.h * l.w
  {
    var n, s := Pieces(l), PieceSize(l);
    if l.codec == Cook {
      assert n * s <= l.w;
      Monotone(n * s, l.w, l.h);
    } else {
      assert l.h == 2 * n;
      assert 2 * (n * s) == l.h * s;
    }
    assert l.h * n * s == l.h * (n * s);
  }

  /** Every piece of a full packet can be copied. */
  lemma {:induction false} FullIsCopyable(l: Layout, p: seq<byte>, r: nat, x: nat)
    requires ValidLayout(l) && Tiles(l) && r < l.h && x < Pieces(l) && |p| >= PieceSize(l) * Pieces(l)
    ensures Copyable(l, l.h * l.w, p, r, x)
  {
    hide Pieces, PieceSize, Dest, Slot;
    var s := PieceSize(l);
    SlotsAreTakenOnce(l, 0, r, x);
    DestIsSlot(l, r, x);
    SlotsFit(l);
    Monotone(Slot(l, r, x) + 1, l.h * Pieces(l), s);
    assert (Slot(l, r, x) + 1) * s == s * Slot(l, r, x) + s;
    Monotone(x + 1, Pieces(l), s);
    assert (x + 1) * s == s * x + s;
  }

  lemma {:induction false} OverwriteSlot(b: seq<byte>, s: nat, j: nat, src: seq<byte>, k: nat)
    requires |src| == s > 0 && s * j + s <= |b| && s * k + s <= |b|
    ensures SlotAt(Overwrite(b, s * j, src), s, k) == if k == j then src else SlotAt(b, s, k)
  {
    if k < j {
      Monotone(k + 1, j, s);
      assert (k + 1) * s == s * k + s;
    } else if k > j {
      Monotone(j + 1, k, s);
      assert (j + 1) * s == s * j + s;
    }
  }

  predicate Full(l: Layout, p: seq<byte>)
    requires ValidLayout(l)
  {
    |p| >= PieceSize(l) * Pieces(l)
  }

  lemma {:induction false} PieceFits(l: Layout, p: seq<byte>, x: nat)
    requires ValidLayout(l) && Full(l, p) && x < Pieces(l)
    ensures PieceSize(l) * x + PieceSize(l) <= |p|
  {
    hide Pieces, PieceSize;
    Monotone(x + 1, Pieces(l), PieceSize(l));
    assert (x + 1) * PieceSize(l) == PieceSize(l) * x + PieceSize(l);
  }

  /** A buffer of a layout whose pieces tile it. */
  predicate Ready(l: Layout, b: seq<byte>) {
    ValidLayout(l) && Tiles(l) && |b| == l.h * l.w
  }

  lemma {:induction false} SlotFits(l: Layout, b: seq<byte>, k: nat)
    requires Ready(l, b) && IsSlot(l, k)
    ensures PieceSize(l) > 0 && PieceSize(l) * k + PieceSize(l) <= |b|
  {
    hide Pieces;
    SlotsFit(l);
    PiecePositive(l);
    hide PieceSize;
    Monotone(k + 1, l.h * Pieces(l), PieceSize(l));
    assert (k + 1) * PieceSize(l) == PieceSize(l) * k + PieceSize(l);
  }

  lemma {:induction false} FullCopies(l: Layout, b: seq<byte>, p: seq<byte>, r: nat, n: nat)
    requires Ready(l, b) && Full(l, p) && r < l.h && n <= Pieces(l)
    ensures AllCopyable(l, |b|, p, r, n)
  {
    hide Pieces, PieceSize, Dest;
    forall x | 0 <= x < n ensures Copyable(l, |b|, p, r, x) {
      FullIsCopyable(l, p, r, x);
    }
  }

  /** One more piece stored: its slot holds it now, and no other slot has changed. */
  lemma {:induction false} StoredNext(l: Layout, b: seq<byte>, p: seq<byte>, r: nat, n: nat, k: nat)
    requires Ready(l, b) && Full(l, p) && r < l.h && 0 < n <= Pieces(l) && IsSlot(l, k)
    ensures SlotAt(Stored(l, b, p, r, n), PieceSize(l), k)
         == if k == Slot(l, r, n - 1) then Piece(l, p, n - 1) else SlotAt(Stored(l, b, p, r, n - 1), PieceSize(l), k)
  {
    hide Pieces, PieceSize, Dest, Slot, Full, IsSlot, Overwrite, Tiles;
    FullCopies(l, b, p, r, n);
    var j := Slot(l, r, n - 1);
    SlotsAreTakenOnce(l, 0, r, n - 1);
    DestIsSlot(l, r, n - 1);
    SlotFits(l, b, j);
    SlotFits(l, b, k);
    PieceFits(l, p, n - 1);
    assert Copyable(l, |b|, p, r, n - 1);
    OverwriteSlot(Stored(l, b, p, r, n - 1), PieceSize(l), j, Piece(l, p, n - 1), k);
  }

  /** What storing the first `n` pieces of a full packet does to each slot. */
  lemma {:induction false} StoredSlot(l: Layout, b: seq<byte>, p: seq<byte>, r: nat, n: nat, k: nat)
    requires Ready(l, b) && Full(l, p) && r < l.h && n <= Pieces(l) && IsSlot(l, k)
    ensures SlotAt(Stored(l, b, p, r, n), PieceSize(l), k)
         == if Owner(l, k) == r && Row(l, k) < n then Piece(l, p, Row(l, k)) else SlotAt(b, PieceSize(l), k)
    decreases n
  {
    hide Pieces, PieceSize, Dest, Slot, Full, IsSlot, Owner, Row, SlotAt, Tiles;
    if n > 0 {
      StoredSlot(l, b, p, r, n - 1, k);
      StoredNext(l, b, p, r, n, k);
      SlotsAreTakenOnce(l, k, r, n - 1);
    }
  }

  /** The buffer after the first packets of a round. */
  function Filled(l: Layout, b: seq<byte>, ps: seq<seq<byte>>): (s: seq<byte>)
    requires ValidLayout(l)
    ensures |s| == |b|
  {
    if ps == [] then b
    else Stored(l, Filled(l, b, ps[..|ps| - 1]), ps[|ps| - 1], |ps| - 1, Pieces(l))
  }

  predicate AllFull(l: Layout, ps: seq<seq<byte>>)
    requires ValidLayout(l)
  {
    forall i :: 0 <= i < |ps| ==> Full(l, ps[i])
  }

  lemma {:induction false} FilledSlot(l: Layout, b: seq<byte>, ps: seq<seq<byte>>, k: nat)
    requires Ready(l, b) && AllFull(l, ps) && |ps| <= l.h && IsSlot(l, k)
    ensures var r := Owner(l, k);
      SlotAt(Filled(l, b, ps), PieceSize(l), k)
        == if r < |ps| then Piece(l, ps[r], Row(l, k)) else SlotAt(b, PieceSize(l), k)
    decreases |ps|
  {
    hide Pieces, PieceSize, Owner, Row, SlotAt, Stored, Tiles, Full, IsSlot, Slot;
    if ps != [] {
      SlotsAreTakenOnce(l, k, 0, 0);
      FilledSlot(l, b, ps[..|ps| - 1], k);
      StoredSlot(l, Filled(l, b, ps[..|ps| - 1]), ps[|ps| - 1], |ps| - 1, Pieces(l), k);
    }
  }

  /** After `h` full packets, whatever was in the buffer, the frame handed out in place `k` is the
      one piece that belongs there: every piece is handed out, once, and nothing else is. */
  lemma {:induction false} FramesAreThePieces(l: Layout, b: seq<byte>, ps: seq<seq<byte>>,
                                              times: seq<real>, pos: int, k: nat)
    requires Ready(l, b) && |times| == l.h && AllFull(l, ps) && |ps| == l.h && IsSlot(l, k)
    ensures var r, x, out := Owner(l, k), Row(l, k), Released(l, Filled(l, b, ps), times, pos);
      && r < l.h && x < Pieces(l) && Slot(l, r, x) == k
      && k < |out| && out[k].data == Piece(l, ps[r], x) && |out[k].data| == PieceSize(l)
      && out[k].pos == pos + k && (out[k].keyframe <==> k == 0)
  {
    SlotsAreTakenOnce(l, k, 0, 0);
    FilledSlot(l, b, ps, k);
    SlotFits(l, b, k);
    hide Pieces, Owner, Row, Stored, Tiles, Full, Slot, Filled, IsSlot;
    FrameInPlace(l, Filled(l, b, ps), times, pos, k);
  }

  /** Which frame is which: in every row of `h`, ra_288 has one piece of each packet in turn; cook first
      those of the packets 0, 2, 4 and so on, and then those of the packets 1, 3, 5 and so on. */
  lemma {:induction false} FrameOrder(l: Layout, b: seq<byte>, ps: seq<seq<byte>>, times: seq<real>, pos: int,
                                      out: seq<Output>, r: nat, row: nat, o: nat, k: nat)
    requires Ready(l, b) && |times| == l.h && AllFull(l, ps) && |ps| == l.h && row < Pieces(l) && r < l.h
    requires o == (if l.codec == Ra288 then r else if r % 2 == 0 then r / 2 else (l.h + 1) / 2 + (r - 1) / 2)
    requires k == row * l.h + o && out == Released(l, Filled(l, b, ps), times, pos)
    ensures k < |out| && out[k].data == Piece(l, ps[r], row)
  {
    hide Piece, Filled, Released, Pieces, Tiles, AllFull;
    TurnIs(l.h, r);
    SlotsAreTakenOnce(l, 0, r, row);
    assert k == Slot(l, r, row);
    FramesAreThePieces(l, b, ps, times, pos, k);
  }

  lemma TurnIs(h: nat, r: nat)
    ensures Turn(h, r) == if r % 2 == 0 then r / 2 else (h + 1) / 2 + (r - 1) / 2
  {
    assert r % 2 == 0 ==> (h + 1) / 2 * (r % 2) == 0;
    assert r % 2 == 1 ==> (h + 1) / 2 * (r % 2) == (h + 1) / 2;
  }

  lemma {:induction false} FrameInPlace(l: Layout, b: seq<byte>, times: seq<real>, pos: int, k: nat)
    requires ValidLayout(l) && |b| == l.h * l.w && |times| == l.h && PieceSize(l) * k + PieceSize(l) <= |b|
    ensures k < |b| / PieceSize(l) && Released(l, b, times, pos)[k].data == SlotAt(b, PieceSize(l), k)
    ensures |SlotAt(b, PieceSize(l), k)| == PieceSize(l)
  {
    PiecePositive(l);
    hide PieceSize;
    var s := PieceSize(l);
    assert s * (k + 1) == s * k + s;
    QuotientAtLeast(|b|, s, k + 1);
    assert k * s == s * k;
  }

  /** No other frames are handed out if and only if the rows' remainders do not add up to one. */
  lemma {:induction false} NoStrayFrames(l: Layout, b: seq<byte>, times: seq<real>, pos: int)
    requires Ready(l, b) && |times| == l.h
    ensures |Released(l, b, times, pos)| == l.h * Pieces(l) <==> l.codec == Ra288 || l.h * (l.w % l.sps) < l.sps
  {
    var s, n := PieceSize(l), l.h * Pieces(l);
    var total := l.h * l.w;
    SlotsFit(l);
    if l.codec == Cook {
      RowRemainder(l.h, l.w, l.sps);
    }
    WholeParts(total, s, n);
  }

  lemma RowRemainder(h: nat, w: nat, s: nat)
    requires s > 0
    ensures h * w == h * (w / s) * s + h * (w % s)
  {
    assert w == w / s * s + w % s;
    assert h * (w / s * s + w % s) == h * (w / s * s) + h * (w % s);
    assert h * (w / s * s) == h * (w / s) * s;
  }

  lemma {:induction false} WholeParts(total: nat, s: nat, n: nat)
    requires s > 0 && n * s <= total
    ensures total / s == n <==> total - n * s < s
  {
    QuotientAtLeast(total, s, n);
    assert total / s * s <= total < total / s * s + s;
    if total / s != n {
      Monotone(n + 1, total / s, s);
      assert (n + 1) * s == n * s + s;
    }
  }

  // ---------- timestamps ----------

  /** The times kept for the first packets of a round, the last packet before having had `last`. */
  function TimesOf(times: seq<real>, last: real, pts: seq<real>): (t: seq<real>)
    requires |pts| <= |times|
    ensures |t| == |times|
  {
    if pts == [] then times
    else
      var n := |pts| - 1;
      TimesOf(times, last, pts[..n])[n := if PtsBefore(last, pts, n) == pts[n] then 0.0 else pts[n]]
  }

  function PtsBefore(last: real, pts: seq<real>, r: nat): real
    requires r <= |pts|
  {
    if r == 0 then last else pts[r - 1]
  }

  /** The timestamp handed out for packet `r`. */
  function SentTime(last: real, pts: seq<real>, r: nat): real
    requires r < |pts|
  {
    if PtsBefore(last, pts, r) == pts[r] then 0.0 else pts[r]
  }

  /** Each packet's own, or zero for one that repeats the timestamp of the packet before. */
  lemma {:induction false} TimesAre(times: seq<real>, last: real, pts: seq<real>, r: nat)
    requires r < |pts| <= |times|
    ensures TimesOf(times, last, pts)[r] == SentTime(last, pts, r)
    decreases |pts|
  {
    if r < |pts| - 1 {
      TimesAre(times, last, pts[..|pts| - 1], r);
    }
  }

  /** Frame `k` starts where packet `r` of the round would, if packets lay one after the other. */
  predicate StartsPacket(l: Layout, k: nat, r: nat) {
    r < l.h && k * PieceSize(l) == r * l.w
  }

  lemma {:induction false} ExactQuotient(a: nat, r: nat, w: nat)
    requires w > 0
    ensures a == r * w ==> a % w == 0 && a / w == r
    ensures a % w == 0 ==> a == a / w * w
  {
    assert a == a / w * w + a % w;
    if a == r * w {
      QuotientAtLeast(a, w, r);
      SmallQuotient(a, w, r + 1) by {
        assert (r + 1) * w == r * w + w;
      }
    }
  }

  lemma {:induction false} FrameTime(l: Layout, b: seq<byte>, times: seq<real>, pos: int, k: nat, r: nat)
    requires ValidLayout(l) && |b| == l.h * l.w && |times| == l.h && k < |b| / PieceSize(l)
    ensures StartsPacket(l, k, r) ==> Frame(l, b, times, pos, k).pts == Pts(times[r])
    ensures Frame(l, b, times, pos, k).pts.Pts? ==> exists r' :: StartsPacket(l, k, r')
  {
    hide PieceSize;
    PiecePositive(l);
    FrameFits(l, |b|, k);
    ExactQuotient(k * PieceSize(l), r, l.w);
    if k * PieceSize(l) % l.w == 0 {
      assert StartsPacket(l, k, k * PieceSize(l) / l.w);
    }
  }

  lemma ReleasedAt(l: Layout, b: seq<byte>, times: seq<real>, pos: int, k: nat)
    requires ValidLayout(l) && |b| == l.h * l.w && |times| == l.h && k < |Released(l, b, times, pos)|
    ensures PieceSize(l) > 0 && k < |b| / PieceSize(l)
    ensures Released(l, b, times, pos)[k] == Frame(l, b, times, pos, k)
  {
    hide Frame;
  }

  /** A frame handed out has a timestamp if and only if it starts where a packet does, and then it is
      that packet's. */
  lemma {:induction false} FramesCarryTimes(l: Layout, b: seq<byte>, times: seq<real>, last: real, pts: seq<real>,
                                            pos: int, out: seq<Output>, k: nat, r: nat)
    requires ValidLayout(l) && |b| == l.h * l.w && |times| == |pts| == l.h
    requires out == Released(l, b, TimesOf(times, last, pts), pos) && k < |out|
    ensures StartsPacket(l, k, r) ==> out[k].pts == Pts(SentTime(last, pts, r))
    ensures out[k].pts.Pts? <==> exists r' :: StartsPacket(l, k, r')
  {
    hide PieceSize, Frame, Released;
    var t := TimesOf(times, last, pts);
    ReleasedAt(l, b, t, pos, k);
    FrameTime(l, b, t, pos, k, r);
    if StartsPacket(l, k, r) {
      TimesAre(times, last, pts, r);
    }
    if r' :| StartsPacket(l, k, r') {
      FrameTime(l, b, t, pos, k, r');
    }
  }
}
