/** Block lacing: several frames in one Matroska block (section 10.3 of RFC 9559), as read by
    demux_mkv_read_block_lacing from a stream up to the block's end position. */
module BlockLacing {
  import opened Octets
  import opened EbmlVarint

  const TWO_TO_THE_32: nat := 0x1_0000_0000
  const MAX_LACE: nat := 0x4000_0000

  /** What a 32-bit variable keeps. */
  function Wrap(x: int): (r: nat)
    ensures r < TWO_TO_THE_32
  {
    x % TWO_TO_THE_32
  }

  datatype Lacing = None | Xiph | Fixed | Ebml

  /** The sizes a block announces and where its frames start, or that its header is broken. */
  datatype Sizes = NoSizes | Sizes(sizes: seq<nat>, body: nat)

  datatype Frames = Failed | Frames(laces: seq<seq<byte>>)

  // ---------- Xiph lacing ----------

  datatype OneSize = NoSize | Size(value: nat, next: nat)

  /** A size: octets are added up until one is not 255; the header must end before the block. */
  function XiphSize(data: seq<byte>, p: nat, end: nat, acc: nat): OneSize
    decreases |data| - p
  {
    if p >= |data| || p + 1 >= end then NoSize
    else if data[p] == 255 then XiphSize(data, p + 1, end, Wrap(acc + 255))
    else Size(Wrap(acc + data[p]), p + 1)
  }

  function XiphSizes(data: seq<byte>, p: nat, end: nat, n: nat): Sizes
    decreases n
  {
    if n == 0 then Sizes([], p)
    else
      match XiphSize(data, p, end, 0)
      case NoSize => NoSizes
      case Size(v, q) => Prepend([v], XiphSizes(data, q, end, n - 1))
  }

  function Prepend(vs: seq<nat>, r: Sizes): Sizes {
    if r.NoSizes? then NoSizes else Sizes(vs + r.sizes, r.body)
  }

  method ReadXiphSize(data: seq<byte>, pos: nat, end: nat) returns (r: OneSize)
    ensures r == XiphSize(data, pos, end, 0)
  {
    var size: nat, p: nat := 0, pos;
    while true
      invariant XiphSize(data, pos, end, 0) == XiphSize(data, p, end, size)
      decreases |data| - p
    {
      var t := CharAt(data, p);
      if t < 0 || p + 1 >= end {
        return NoSize;
      }
      p := p + 1;
      if t != 0xFF {
        return Size(Wrap(size + t), p);
      }
      size := Wrap(size + t);
    }
  }

  method ReadXiphSizes(data: seq<byte>, pos: nat, end: nat, n: nat) returns (r: Sizes)
    ensures r == XiphSizes(data, pos, end, n)
  {
    var sizes: seq<nat>, p: nat := [], pos;
    for i := 0 to n
      invariant |sizes| == i
      invariant XiphSizes(data, pos, end, n) == Prepend(sizes, XiphSizes(data, p, end, n - i))
    {
      var s := ReadXiphSize(data, p, end);
      if s.NoSize? {
        return NoSizes;
      }
      ghost var rest := XiphSizes(data, s.next, end, n - i - 1);
      PrependTwice(sizes, s.value, rest);
      sizes, p := sizes + [s.value], s.next;
    }
    return Sizes(sizes, p);
  }

  lemma PrependTwice(vs: seq<nat>, v: nat, r: Sizes)
    ensures Prepend(vs, Prepend([v], r)) == Prepend(vs + [v], r)
  {
    if r.Sizes? {
      assert vs + ([v] + r.sizes) == vs + [v] + r.sizes;
    }
  }

  // ---------- EBML lacing ----------

  /** Sizes after the first one: signed differences to the one before. */
  function EbmlSizes(data: seq<byte>, p: nat, end: nat, prev: nat, n: nat): Sizes
    requires p <= |data|
    decreases n
  {
    if n == 0 then Sizes([], p)
    else
      var d := Decoded(data[p..]);
      if !d.Known? || d.width == 0 || p + d.width > |data| || p + d.width >= end then NoSizes
      else
        var v := Wrap(prev + d.value - Bias(d.width));
        Prepend([v], EbmlSizes(data, p + d.width, end, v, n - 1))
  }

  method ReadEbmlSizes(data: seq<byte>, pos: nat, end: nat, first: nat, n: nat) returns (r: Sizes)
    requires pos <= |data|
    ensures r == EbmlSizes(data, pos, end, first, n)
  {
    hide Decoded, Bias;
    var sizes: seq<nat>, p: nat, prev: nat := [], pos, first;
    for i := 0 to n
      invariant p <= |data| && |sizes| == i
      invariant EbmlSizes(data, pos, end, first, n) == Prepend(sizes, EbmlSizes(data, p, end, prev, n - i))
    {
      KnownWidth(data[p..]);
      var snum, q := ReadSignedLength(data, p);
      SignedIsSmall(data[p..]);
      if snum == INT_INVALID || q >= end {
        return NoSizes;
      }
      var v := Wrap(prev + snum);
      PrependTwice(sizes, v, EbmlSizes(data, q, end, v, n - i - 1));
      sizes, p, prev := sizes + [v], q, v;
    }
    return Sizes(sizes, p);
  }

  lemma KnownWidth(d: seq<byte>)
    ensures Decoded(d).Known? ==> 1 <= Decoded(d).width <= 8 && Decoded(d).width <= |d|
  {
    DecodedIsEncoding(d);
  }

  /** No signed length is the invalid value. */
  lemma SignedIsSmall(d: seq<byte>)
    ensures Decoded(d).Known? ==> Decoded(d).width >= 1 && Decoded(d).value - Bias(Decoded(d).width) < INT_INVALID
  {
    DecodedIsEncoding(d);
    if Decoded(d).Known? {
      LimitFits(Decoded(d).width);
    }
  }

  // ---------- the header ----------

  function Sum(vs: seq<nat>): nat {
    if vs == [] then 0 else vs[0] + Sum(vs[1..])
  }

  /** The last size is what is left, in 32 bits. */
  function WithLast(r: Sizes, end: nat): Sizes {
    if r.NoSizes? then NoSizes else Sizes(r.sizes + [Wrap(end - r.body - Sum(r.sizes))], r.body)
  }

  /** With a single lace the announced size is not a frame's, but still taken off the last one. */
  function EbmlHeader(data: seq<byte>, p: nat, end: nat, n: nat): Sizes
    requires p <= |data| && n > 0
  {
    var d := Decoded(data[p..]);
    if !d.Known? || p + d.width > |data| || p + d.width >= end then NoSizes
    else
      var first := Wrap(d.value);
      var q := p + d.width;
      if n == 1 then Sizes([Wrap(end - q - first)], q)
      else WithLast(Prepend([first], EbmlSizes(data, q, end, first, n - 2)), end)
  }

  /** The sizes of all laces. */
  function LaceSizes(data: seq<byte>, pos: nat, end: nat, kind: Lacing): Sizes
    requires pos <= |data|
  {
    if kind == None then Sizes([Wrap(end - pos)], pos)
    else if pos >= |data| || pos + 1 > end then NoSizes
    else
      var n, p := data[pos] as nat + 1, pos + 1;
      match kind
      case Xiph => WithLast(XiphSizes(data, p, end, n - 1), end)
      case Fixed => Sizes(seq(n, _ => Wrap(end - p) / n), p)
      case Ebml => EbmlHeader(data, p, end, n)
  }

  /** The frames of the given sizes, which must fill the block exactly. */
  function Cut(data: seq<byte>, p: nat, end: nat, sizes: seq<nat>): Frames
    decreases |sizes|
  {
    if sizes == [] then if p == end then Frames([]) else Failed
    else if p + sizes[0] > end || sizes[0] > MAX_LACE || p + sizes[0] > |data| then Failed
    else
      match Cut(data, p + sizes[0], end, sizes[1..])
      case Failed => Failed
      case Frames(ls) => Frames([data[p..p + sizes[0]]] + ls)
  }

  function Laced(data: seq<byte>, pos: nat, end: nat, kind: Lacing): Frames
    requires pos <= |data|
  {
    match LaceSizes(data, pos, end, kind)
    case NoSizes => Failed
    case Sizes(sizes, body) => Cut(data, body, end, sizes)
  }

  lemma {:induction false} SumSnoc(vs: seq<nat>, v: nat)
    ensures Sum(vs + [v]) == Sum(vs) + v
  {
    if vs == [] {
      assert [v][1..] == [];
    } else {
      SumSnoc(vs[1..], v);
      assert (vs + [v])[1..] == vs[1..] + [v];
    }
  }

  lemma WrapShift(x: int, k: int)
    ensures Wrap(x + k * TWO_TO_THE_32) == Wrap(x)
  {
    assert x == x / TWO_TO_THE_32 * TWO_TO_THE_32 + Wrap(x);
    assert (x + k * TWO_TO_THE_32) / TWO_TO_THE_32 == x / TWO_TO_THE_32 + k;
  }

  lemma {:induction false} WrapWrap(a: int, b: int)
    ensures Wrap(Wrap(a) + b) == Wrap(a + b) && Wrap(Wrap(a) - b) == Wrap(a - b) && Wrap(a - Wrap(b)) == Wrap(a - b)
  {
    var j, k := a / TWO_TO_THE_32, b / TWO_TO_THE_32;
    assert Wrap(a) == a - j * TWO_TO_THE_32 && Wrap(b) == b - k * TWO_TO_THE_32;
    WrapShift(a + b, -j);
    WrapShift(a - b, -j);
    WrapShift(a - b, k);
    hide Wrap;
  }

  /** The total the source keeps while reading, in 32 bits. */
  method Total(sizes: seq<nat>) returns (total: nat)
    ensures total == Wrap(Sum(sizes))
  {
    total := 0;
    for i := 0 to |sizes|
      invariant total == Wrap(Sum(sizes[..i]))
    {
      SumSnoc(sizes[..i], sizes[i]);
      assert sizes[..i + 1] == sizes[..i] + [sizes[i]];
      WrapWrap(Sum(sizes[..i]), sizes[i]);
      total := Wrap(total + sizes[i]);
    }
    assert sizes[..|sizes|] == sizes;
  }

  method AddLast(r: Sizes, end: nat) returns (t: Sizes)
    ensures t == WithLast(r, end)
  {
    if r.NoSizes? {
      return NoSizes;
    }
    var total := Total(r.sizes);
    var rest: int := Wrap(end - r.body);
    WrapWrap(end - r.body, Sum(r.sizes));
    WrapWrap(end - r.body - Sum(r.sizes), 0);
    WrapWrap(Wrap(end - r.body), Sum(r.sizes));
    return Sizes(r.sizes + [Wrap(rest - total)], r.body);
  }

  method ReadEbmlHeader(data: seq<byte>, p: nat, end: nat, n: nat) returns (r: Sizes)
    requires p <= |data| && n > 0
    ensures r == EbmlHeader(data, p, end, n)
  {
    hide Decoded;
    KnownWidth(data[p..]);
    UnknownIsInvalid(data[p..]);
    var num, q := ReadLength(data, p);
    if num == UINT_INVALID || q >= end {
      return NoSizes;
    }
    var first := Wrap(num);
    if n == 1 {
      var rest: int := Wrap(end - q);
      WrapWrap(end - q, first);
      return Sizes([Wrap(rest - first)], q);
    }
    var s := ReadEbmlSizes(data, q, end, first, n - 2);
    r := if s.NoSizes? then NoSizes else Sizes([first] + s.sizes, s.body);
    r := AddLast(r, end);
  }

  /** demux_mkv_read_block_lacing. */
  method ReadBlockLacing(data: seq<byte>, pos: nat, end: nat, kind: Lacing) returns (r: Frames)
    requires pos <= |data|
    ensures r == Laced(data, pos, end, kind)
  {
    hide Decoded, EbmlHeader, XiphSizes, WithLast, Cut;
    var sizes;
    if kind == None {
      sizes := Sizes([Wrap(end - pos)], pos);
    } else {
      var c := CharAt(data, pos);
      if c < 0 || pos + 1 > end {
        return Failed;
      }
      var laces, p := c + 1, pos + 1;
      match kind {
        case Xiph =>
          sizes := ReadXiphSizes(data, p, end, laces - 1);
          sizes := AddLast(sizes, end);
        case Fixed =>
          var full := Wrap(end - p);
          sizes := Sizes(seq(laces, _ => full / laces), p);
        case Ebml =>
          sizes := ReadEbmlHeader(data, p, end, laces);
      }
    }
    if sizes.NoSizes? {
      return Failed;
    }
    r := CutLaces(data, sizes.body, end, sizes.sizes);
  }

  function PrependFrames(ls: seq<seq<byte>>, r: Frames): Frames {
    if r.Failed? then Failed else Frames(ls + r.laces)
  }

  method CutLaces(data: seq<byte>, pos: nat, end: nat, sizes: seq<nat>) returns (r: Frames)
    ensures r == Cut(data, pos, end, sizes)
  {
    var p: nat, laces: seq<seq<byte>> := pos, [];
    assert sizes[0..] == sizes;
    for i := 0 to |sizes|
      invariant |laces| == i
      invariant Cut(data, pos, end, sizes) == PrependFrames(laces, Cut(data, p, end, sizes[i..]))
    {
      assert sizes[i..][1..] == sizes[i + 1..];
      var size := sizes[i];
      if p + size > end || size > MAX_LACE || p + size > |data| {
        return Failed;
      }
      var lace := data[p..p + size];
      ghost var rest := Cut(data, p + size, end, sizes[i + 1..]);
      assert rest.Frames? ==> laces + ([lace] + rest.laces) == laces + [lace] + rest.laces;
      laces, p := laces + [lace], p + size;
    }
    if p != end {
      return Failed;
    }
    assert laces + [] == laces;
    return Frames(laces);
  }

  // ---------- partition ----------

  function Flatten(ls: seq<seq<byte>>): seq<byte> {
    if ls == [] then [] else ls[0] + Flatten(ls[1..])
  }

  lemma {:induction false} CutIsPartition(data: seq<byte>, p: nat, end: nat, sizes: seq<nat>)
    requires Cut(data, p, end, sizes).Frames?
    ensures p <= end && (p < end ==> end <= |data|)
    ensures var ls := Cut(data, p, end, sizes).laces;
      && |ls| == |sizes| && (forall i :: 0 <= i < |ls| ==> |ls[i]| == sizes[i] <= MAX_LACE)
      && Flatten(ls) == if p < end then data[p..end] else []
    decreases |sizes|
  {
    if sizes != [] {
      CutIsPartition(data, p + sizes[0], end, sizes[1..]);
      var ls := Cut(data, p, end, sizes).laces;
      assert ls[1..] == Cut(data, p + sizes[0], end, sizes[1..]).laces;
      if p < end && p + sizes[0] < end {
        assert data[p..p + sizes[0]] + data[p + sizes[0]..end] == data[p..end];
      }
    }
  }

  /** A block without lacing has one frame, any other as many as its first octet says, plus one. */
  function LaceCount(data: seq<byte>, pos: nat, kind: Lacing): nat
    requires kind != None ==> pos < |data|
  {
    if kind == None then 1 else data[pos] as nat + 1
  }

  lemma {:induction false} XiphCount(data: seq<byte>, p: nat, end: nat, n: nat)
    ensures var s := XiphSizes(data, p, end, n); s.Sizes? ==> |s.sizes| == n && p <= s.body && (n > 0 ==> s.body < end)
    decreases n
  {
    if n > 0 {
      XiphSizeBound(data, p, end, 0);
      var one := XiphSize(data, p, end, 0);
      if one.Size? {
        XiphCount(data, one.next, end, n - 1);
      }
    }
  }

  lemma {:induction false} XiphSizeBound(data: seq<byte>, p: nat, end: nat, acc: nat)
    ensures var s := XiphSize(data, p, end, acc); s.Size? ==> p < s.next < end && s.next <= |data|
    decreases |data| - p
  {
    if p < |data| && p + 1 < end && data[p] == 255 {
      XiphSizeBound(data, p + 1, end, Wrap(acc + 255));
    }
  }

  lemma {:induction false} EbmlCount(data: seq<byte>, p: nat, end: nat, prev: nat, n: nat)
    requires p <= |data|
    ensures var s := EbmlSizes(data, p, end, prev, n); s.Sizes? ==> |s.sizes| == n && p <= s.body <= |data|
    decreases n
  {
    hide Decoded, Bias;
    if n > 0 {
      var d := Decoded(data[p..]);
      if d.Known? && d.width != 0 && p + d.width <= |data| {
        EbmlCount(data, p + d.width, end, Wrap(prev + d.value - Bias(d.width)), n - 1);
      }
    }
  }

  // ---------- writing laces, and reading them back ----------

  predicate HoldsAt(data: seq<byte>, p: nat, bs: seq<byte>) {
    p + |bs| <= |data| && data[p..p + |bs|] == bs
  }

  lemma HoldsParts(data: seq<byte>, p: nat, a: seq<byte>, b: seq<byte>)
    requires HoldsAt(data, p, a + b)
    ensures HoldsAt(data, p, a) && HoldsAt(data, p + |a|, b)
  {
    assert data[p..p + |a|] == (a + b)[..|a|];
    assert data[p + |a|..p + |a| + |b|] == (a + b)[|a|..];
  }

  function Lens(ls: seq<seq<byte>>): (vs: seq<nat>)
    ensures |vs| == |ls|
  {
    seq(|ls|, i requires 0 <= i < |ls| => |ls[i]|)
  }

  lemma LensOfRest(ls: seq<seq<byte>>)
    requires ls != []
    ensures Lens(ls)[0] == |ls[0]| && Lens(ls)[1..] == Lens(ls[1..])
  {
  }

  lemma {:induction false} SumOfLens(ls: seq<seq<byte>>)
    ensures Sum(Lens(ls)) == |Flatten(ls)|
  {
    if ls != [] {
      LensOfRest(ls);
      SumOfLens(ls[1..]);
    }
  }

  predicate Laceable(ls: seq<seq<byte>>) {
    forall i :: 0 <= i < |ls| ==> |ls[i]| <= MAX_LACE
  }

  /** Frames lying one after the other up to the block's end are cut out again. */
  lemma {:induction false} CutReads(data: seq<byte>, p: nat, end: nat, ls: seq<seq<byte>>)
    requires HoldsAt(data, p, Flatten(ls)) && end == p + |Flatten(ls)| && Laceable(ls)
    ensures Cut(data, p, end, Lens(ls)) == Frames(ls)
    decreases |ls|
  {
    if ls != [] {
      LensOfRest(ls);
      HoldsParts(data, p, ls[0], Flatten(ls[1..]));
      CutReads(data, p + |ls[0]|, end, ls[1..]);
      assert [ls[0]] + ls[1..] == ls;
    }
  }

  /** The header is fine if its sizes are those of all frames but the last one. */
  lemma HeaderSuffices(data: seq<byte>, body: nat, end: nat, ls: seq<seq<byte>>, r: Sizes)
    requires ls != [] && Laceable(ls) && HoldsAt(data, body, Flatten(ls)) && end == body + |Flatten(ls)|
    requires r == Sizes(Lens(ls)[..|ls| - 1], body)
    ensures WithLast(r, end) == Sizes(Lens(ls), body)
    ensures Cut(data, body, end, Lens(ls)) == Frames(ls)
  {
    hide HoldsAt, Flatten, Cut, Lens, Sum;
    LensAreSmall(ls);
    CutReads(data, body, end, ls);
    SumOfLens(ls);
    SumSnoc(Lens(ls)[..|ls| - 1], |ls[|ls| - 1]|);
    assert Lens(ls)[..|ls| - 1] + [|ls[|ls| - 1]|] == Lens(ls);
  }

  // Xiph

  function XiphEncoded(v: nat): (bs: seq<byte>)
    ensures |bs| > 0
  {
    if v < 255 then [v] else [255] + XiphEncoded(v - 255)
  }

  function XiphEncodedAll(vs: seq<nat>): seq<byte> {
    if vs == [] then [] else XiphEncoded(vs[0]) + XiphEncodedAll(vs[1..])
  }

  function XiphBlock(ls: seq<seq<byte>>): seq<byte>
    requires 1 <= |ls| <= 256
  {
    [(|ls| - 1) as byte] + (XiphEncodedAll(Lens(ls)[..|ls| - 1]) + Flatten(ls))
  }

  lemma {:induction false} XiphSizeReads(data: seq<byte>, p: nat, end: nat, acc: nat, v: nat)
    requires HoldsAt(data, p, XiphEncoded(v)) && p + |XiphEncoded(v)| < end
    ensures XiphSize(data, p, end, acc) == Size(Wrap(acc + v), p + |XiphEncoded(v)|)
    decreases v
  {
    assert data[p] == data[p..p + |XiphEncoded(v)|][0];
    if v >= 255 {
      HoldsParts(data, p, [255], XiphEncoded(v - 255));
      XiphSizeReads(data, p + 1, end, Wrap(acc + 255), v - 255);
      WrapWrap(acc + 255, v - 255);
    }
  }

  lemma {:induction false} XiphSizesRead(data: seq<byte>, p: nat, end: nat, vs: seq<nat>)
    requires HoldsAt(data, p, XiphEncodedAll(vs)) && (p + |XiphEncodedAll(vs)| < end)
    requires forall i :: 0 <= i < |vs| ==> vs[i] <= MAX_LACE
    ensures XiphSizes(data, p, end, |vs|) == Sizes(vs, p + |XiphEncodedAll(vs)|)
    decreases |vs|
  {
    hide HoldsAt, XiphEncoded, XiphSize;
    if vs != [] {
      HoldsParts(data, p, XiphEncoded(vs[0]), XiphEncodedAll(vs[1..]));
      XiphSizeReads(data, p, end, 0, vs[0]);
      XiphSizesRead(data, p + |XiphEncoded(vs[0])|, end, vs[1..]);
      assert [vs[0]] + vs[1..] == vs;
    }
  }

  lemma BlockHolds(before: seq<byte>, a: seq<byte>, b: seq<byte>, c: seq<byte>, after: seq<byte>)
    ensures var data := before + (a + (b + c)) + after;
      HoldsAt(data, |before|, a) && HoldsAt(data, |before| + |a|, b) && HoldsAt(data, |before| + |a| + |b|, c)
  {
    var data := before + (a + (b + c)) + after;
    assert data[|before|..|before| + |a + (b + c)|] == a + (b + c);
    HoldsParts(data, |before|, a, b + c);
    HoldsParts(data, |before| + |a|, b, c);
  }

  /** Xiph-laced frames are read back unchanged, whatever surrounds the block. */
  lemma XiphRoundTrip(before: seq<byte>, ls: seq<seq<byte>>, after: seq<byte>)
    requires 2 <= |ls| <= 256 && Laceable(ls) && Flatten(ls) != []
    ensures Laced(before + XiphBlock(ls) + after, |before|, |before| + |XiphBlock(ls)|, Xiph) == Frames(ls)
  {
    hide Flatten, XiphEncodedAll, HoldsAt, Lens, Cut, XiphSizes;
    var count: seq<byte> := [(|ls| - 1) as byte];
    var sizes := Lens(ls)[..|ls| - 1];
    var data, p, end := before + XiphBlock(ls) + after, |before|, |before| + |XiphBlock(ls)|;
    BlockHolds(before, count, XiphEncodedAll(sizes), Flatten(ls), after);
    assert data[p] == XiphBlock(ls)[0] == (|ls| - 1) as byte;
    var body := p + 1 + |XiphEncodedAll(sizes)|;
    LensAreSmall(ls);
    XiphSizesRead(data, p + 1, end, sizes);
    HeaderSuffices(data, body, end, ls, Sizes(sizes, body));
  }

  lemma LensAreSmall(ls: seq<seq<byte>>)
    requires Laceable(ls)
    ensures forall i :: 0 <= i < |ls| ==> Lens(ls)[i] == |ls[i]| <= MAX_LACE
  {
  }

  // EBML

  /** The differences fit the widths they are to be written in. */
  predicate DifferencesFit(prev: nat, vs: seq<nat>, ws: seq<nat>)
    decreases |vs|
  {
    |vs| == |ws| &&
    (vs != [] ==> 1 <= ws[0] <= 8 && -(Bias(ws[0]) as int) <= vs[0] - prev <= Bias(ws[0])
                  && DifferencesFit(vs[0], vs[1..], ws[1..]))
  }

  function EbmlEncodedAll(prev: nat, vs: seq<nat>, ws: seq<nat>): seq<byte>
    requires DifferencesFit(prev, vs, ws)
    decreases |vs|
  {
    if vs == [] then [] else EncodedSigned(vs[0] - prev, ws[0]) + EbmlEncodedAll(vs[0], vs[1..], ws[1..])
  }

  /** The sizes but the first and the last one. */
  function MiddleLens(ls: seq<seq<byte>>): seq<nat>
    requires |ls| >= 2
  {
    Lens(ls)[1..|ls| - 1]
  }

  predicate EbmlLaceable(ls: seq<seq<byte>>, w: nat, ws: seq<nat>) {
    && 2 <= |ls| <= 256 && Laceable(ls) && Flatten(ls) != []
    && 1 <= w <= 8 && |ls[0]| < Limit(w) - 1
    && DifferencesFit(|ls[0]|, MiddleLens(ls), ws)
  }

  function EbmlBlock(ls: seq<seq<byte>>, w: nat, ws: seq<nat>): seq<byte>
    requires EbmlLaceable(ls, w, ws)
  {
    [(|ls| - 1) as byte] + ((Encoded(|ls[0]|, w) + EbmlEncodedAll(|ls[0]|, MiddleLens(ls), ws)) + Flatten(ls))
  }

  lemma HeldIsDecoded(data: seq<byte>, p: nat, v: nat, w: nat)
    requires HoldsAt(data, p, Encoded(v, w)) && 1 <= w <= 8 && v < Limit(w) - 1
    ensures Decoded(data[p..]) == Known(v, w) && p + w <= |data|
  {
    DecodeEncoded(v, w, data[p + w..]);
    assert data[p..] == data[p..p + w] + data[p + w..];
  }

  lemma SignedIsDecoded(data: seq<byte>, p: nat, n: int, w: nat)
    requires 1 <= w <= 8 && -(Bias(w) as int) <= n <= Bias(w) && HoldsAt(data, p, EncodedSigned(n, w))
    ensures Decoded(data[p..]) == Known(n + Bias(w), w) && p + w <= |data| && |EncodedSigned(n, w)| == w
  {
    LimitStep(w);
    HeldIsDecoded(data, p, n + Bias(w), w);
  }

  lemma {:induction false} EbmlSizesRead(data: seq<byte>, p: nat, end: nat, prev: nat, vs: seq<nat>, ws: seq<nat>)
    requires DifferencesFit(prev, vs, ws) && HoldsAt(data, p, EbmlEncodedAll(prev, vs, ws))
    requires p + |EbmlEncodedAll(prev, vs, ws)| < end && p <= |data|
    requires forall i :: 0 <= i < |vs| ==> vs[i] <= MAX_LACE
    ensures EbmlSizes(data, p, end, prev, |vs|) == Sizes(vs, p + |EbmlEncodedAll(prev, vs, ws)|)
    decreases |vs|
  {
    hide Decoded, EncodedSigned, Bias;
    if vs != [] {
      var one := EncodedSigned(vs[0] - prev, ws[0]);
      HoldsParts(data, p, one, EbmlEncodedAll(vs[0], vs[1..], ws[1..]));
      SignedIsDecoded(data, p, vs[0] - prev, ws[0]);
      EbmlSizesRead(data, p + |one|, end, vs[0], vs[1..], ws[1..]);
      assert [vs[0]] + vs[1..] == vs;
    }
  }

  /** EBML-laced frames are read back unchanged, whatever widths the sizes are written in. */
  lemma {:induction false} EbmlRoundTrip(before: seq<byte>, ls: seq<seq<byte>>, w: nat, ws: seq<nat>, after: seq<byte>)
    requires EbmlLaceable(ls, w, ws)
    ensures var block := EbmlBlock(ls, w, ws);
      Laced(before + block + after, |before|, |before| + |block|, Ebml) == Frames(ls)
  {
    hide Flatten, HoldsAt, Lens, Cut, EbmlEncodedAll, EbmlSizes, Decoded, DifferencesFit, Limit, Encoded;
    var count: seq<byte> := [(|ls| - 1) as byte];
    var first, middle := Encoded(|ls[0]|, w), EbmlEncodedAll(|ls[0]|, MiddleLens(ls), ws);
    var data, p, end := before + EbmlBlock(ls, w, ws) + after, |before|, |before| + |EbmlBlock(ls, w, ws)|;
    BlockHolds(before, count, first + middle, Flatten(ls), after);
    assert data[p] == EbmlBlock(ls, w, ws)[0] == (|ls| - 1) as byte;
    HoldsParts(data, p + 1, first, middle);
    HeldIsDecoded(data, p + 1, |ls[0]|, w);
    LensAreSmall(ls);
    EbmlSizesRead(data, p + 1 + |first|, end, |ls[0]|, MiddleLens(ls), ws);
    var body := p + 1 + |first + middle|;
    assert [|ls[0]|] + MiddleLens(ls) == Lens(ls)[..|ls| - 1];
    HeaderSuffices(data, body, end, ls, Sizes(Lens(ls)[..|ls| - 1], body));
  }

  lemma {:induction false} DifferencesFitEight(prev: nat, vs: seq<nat>)
    requires prev <= MAX_LACE && forall i :: 0 <= i < |vs| ==> vs[i] <= MAX_LACE
    ensures DifferencesFit(prev, vs, seq(|vs|, _ => 8))
    decreases |vs|
  {
    LimitFits(8);
    assert Bias(8) > MAX_LACE by {
      assert Pow(128, 3) == 0x20_0000;
      assert Pow(128, 6) == 128 * (128 * (128 * Pow(128, 3)));
      assert Pow(128, 7) == 128 * Pow(128, 6);
    }
    if vs != [] {
      DifferencesFitEight(vs[0], vs[1..]);
      assert seq(|vs|, _ => 8)[1..] == seq(|vs| - 1, _ => 8);
    }
  }

  /** Any two to 256 frames that may be laced at all can be written with EBML lacing. */
  lemma {:induction false} EveryBlockIsEbmlLaceable(ls: seq<seq<byte>>)
    requires 2 <= |ls| <= 256 && Laceable(ls) && Flatten(ls) != []
    ensures EbmlLaceable(ls, 8, seq(|ls| - 2, _ => 8))
  {
    LensAreSmall(ls);
    DifferencesFitEight(|ls[0]|, MiddleLens(ls));
    assert Limit(8) > MAX_LACE + 1 by {
      assert Limit(3) == 0x20_0000;
      assert Limit(6) == 128 * (128 * (128 * Limit(3)));
      assert Limit(8) == 128 * (128 * Limit(6));
    }
  }

  /** A single EBML-laced frame is only read if its announced size is zero: the size of the one
      frame is the rest of the block less what was announced for it. */
  lemma SingleEbmlLace(data: seq<byte>, pos: nat, end: nat)
    requires pos < |data| && data[pos] == 0
    ensures Laced(data, pos, end, Ebml).Frames? <==>
      var d := Decoded(data[pos + 1..]);
      && d.Known? && pos + 1 + d.width < end <= |data|
      && d.value % TWO_TO_THE_32 == 0 && end - (pos + 1 + d.width) <= MAX_LACE
  {
    hide Decoded;
    var d := Decoded(data[pos + 1..]);
    KnownWidth(data[pos + 1..]);
    if d.Known? && pos + 1 + d.width < end {
      var q, first := pos + 1 + d.width, Wrap(d.value);
      var size := Wrap(end - q - first);
      assert LaceSizes(data, pos, end, Ebml) == Sizes([size], q);
      assert Cut(data, q + size, end, [size][1..]) == if q + size == end then Frames([]) else Failed;
    }
  }

  // none

  /** A block without lacing is one frame, from its first octet to its last one: read unchanged exactly
      if that is no longer than a frame may be. */
  lemma UnlacedRoundTrip(before: seq<byte>, frame: seq<byte>, after: seq<byte>)
    ensures Laced(before + frame + after, |before|, |before| + |frame|, None) ==
      if |frame| <= MAX_LACE then Frames([frame]) else Failed
  {
    var data, p, end := before + frame + after, |before|, |before| + |frame|;
    var size := Wrap(|frame|);
    assert data[p..end] == frame;
    assert [size][1..] == [];
    assert Cut(data, p + size, end, []) == if size == |frame| then Frames([]) else Failed;
    assert [frame] + [] == [frame];
  }

  // frames without content

  lemma {:induction false} XiphIsLong(vs: seq<nat>)
    ensures |XiphEncodedAll(vs)| >= |vs|
  {
    if vs != [] {
      XiphIsLong(vs[1..]);
    }
  }

  lemma {:induction false} NoContent(ls: seq<seq<byte>>)
    requires Flatten(ls) == []
    ensures forall i :: 0 <= i < |ls| ==> ls[i] == [] && Lens(ls)[i] == 0
  {
    if ls != [] {
      NoContent(ls[1..]);
      LensOfRest(ls);
      assert forall i :: 0 < i < |ls| ==> ls[i] == ls[1..][i - 1];
    }
  }

  /** If none of the frames has any content, the sizes end where the block does, and the block is rejected. */
  lemma EmptyXiphIsRejected(before: seq<byte>, ls: seq<seq<byte>>, after: seq<byte>)
    requires 2 <= |ls| <= 256 && Flatten(ls) == []
    ensures Laced(before + XiphBlock(ls) + after, |before|, |before| + |XiphBlock(ls)|, Xiph) == Failed
  {
    hide Flatten, XiphEncodedAll, HoldsAt, Lens, Cut, XiphSizes;
    var count: seq<byte> := [(|ls| - 1) as byte];
    var sizes := Lens(ls)[..|ls| - 1];
    var data, p, end := before + XiphBlock(ls) + after, |before|, |before| + |XiphBlock(ls)|;
    assert data[p] == XiphBlock(ls)[0] == (|ls| - 1) as byte;
    NoContent(ls);
    ZerosAreShort(sizes);
    assert end == p + 1 + |sizes|;
    if XiphSizes(data, p + 1, end, |sizes|).Sizes? {
      XiphCount(data, p + 1, end, |sizes|);
      var vs := XiphSizesAre(data, p + 1, end, |sizes|);
      XiphIsLong(vs);
      assert false;
    }
  }

  lemma {:induction false} ZerosAreShort(vs: seq<nat>)
    requires forall i :: 0 <= i < |vs| ==> vs[i] == 0
    ensures |XiphEncodedAll(vs)| == |vs|
  {
    if vs != [] {
      ZerosAreShort(vs[1..]);
    }
  }

  lemma {:induction false} EbmlSizesEnd(data: seq<byte>, p: nat, end: nat, prev: nat, vs: seq<nat>, ws: seq<nat>)
    requires DifferencesFit(prev, vs, ws) && HoldsAt(data, p, EbmlEncodedAll(prev, vs, ws)) && vs != []
    requires p + |EbmlEncodedAll(prev, vs, ws)| == end && p <= |data|
    requires forall i :: 0 <= i < |vs| ==> vs[i] <= MAX_LACE
    ensures EbmlSizes(data, p, end, prev, |vs|).NoSizes?
    decreases |vs|
  {
    hide Decoded, EncodedSigned, Bias;
    var one := EncodedSigned(vs[0] - prev, ws[0]);
    HoldsParts(data, p, one, EbmlEncodedAll(vs[0], vs[1..], ws[1..]));
    SignedIsDecoded(data, p, vs[0] - prev, ws[0]);
    if |vs| > 1 {
      EbmlSizesEnd(data, p + |one|, end, vs[0], vs[1..], ws[1..]);
    } else {
      assert EbmlEncodedAll(vs[0], vs[1..], ws[1..]) == [];
    }
  }

  /** The same for EBML lacing. */
  lemma {:induction false} EmptyEbmlIsRejected(before: seq<byte>, count: byte, w: nat, ws: seq<nat>, after: seq<byte>)
    requires 1 <= w <= 8 && 1 <= count
    requires DifferencesFit(0, seq(count as nat - 1, _ => 0), ws)
    ensures var block := [count] + (Encoded(0, w) + EbmlEncodedAll(0, seq(count as nat - 1, _ => 0), ws));
      Laced(before + block + after, |before|, |before| + |block|, Ebml) == Failed
  {
    hide HoldsAt, Cut, EbmlEncodedAll, EbmlSizes, Decoded, DifferencesFit, Limit, Encoded;
    var zeros: seq<nat> := seq(count as nat - 1, _ => 0);
    var first, middle := Encoded(0, w), EbmlEncodedAll(0, zeros, ws);
    var block := [count] + (first + middle);
    var data, p, end := before + block + after, |before|, |before| + |block|;
    assert first + middle + [] == first + middle;
    BlockHolds(before, [count], first + middle, [], after);
    assert data[p] == block[0] == count;
    HoldsParts(data, p + 1, first, middle);
    RoomForZero(w);
    HeldIsDecoded(data, p + 1, 0, w);
    if zeros != [] {
      EbmlSizesEnd(data, p + 1 + w, end, 0, zeros, ws);
    } else {
      assert middle == [] by { NothingEncoded(ws); }
    }
  }

  lemma RoomForZero(w: nat)
    requires w >= 1
    ensures Limit(w) > 1
  {
    LimitStep(w);
  }

  lemma NothingEncoded(ws: seq<nat>)
    requires DifferencesFit(0, [], ws)
    ensures EbmlEncodedAll(0, [], ws) == []
  {
  }

  // fixed-size

  lemma {:induction false} CutEqually(data: seq<byte>, p: nat, end: nat, n: nat, k: nat)
    ensures Cut(data, p, end, seq(n, _ => k)).Frames? <==>
      && p + n * k == end
      && (n > 0 ==> k <= MAX_LACE && (k > 0 ==> end <= |data|) && (k == 0 ==> p <= |data|))
    decreases n
  {
    var sizes := seq(n, _ => k);
    if n > 0 {
      assert sizes[1..] == seq(n - 1, _ => k);
      assert n * k == k + (n - 1) * k;
      CutEqually(data, p + k, end, n - 1, k);
    }
  }

  /** A fixed-size laced block is read if and only if the frames divide it evenly, fit the limits
      and are all there; a block of 4 GiB or more never is, as its length is kept in 32 bits. */
  lemma FixedSucceeds(data: seq<byte>, pos: nat, end: nat)
    requires pos < |data|
    ensures var n, full := data[pos] as nat + 1, end - (pos + 1);
      Laced(data, pos, end, Fixed).Frames? <==>
        0 <= full < TWO_TO_THE_32 && full % n == 0 && full / n <= MAX_LACE && end <= |data|
  {
    var n, p := data[pos] as nat + 1, pos + 1;
    if p <= end {
      var full := end - p;
      var k := Wrap(full) / n;
      CutEqually(data, p, end, n, k);
      EvenSplit(full, n, k);
    }
  }

  lemma EvenSplit(full: nat, n: nat, k: nat)
    requires n > 0 && k == Wrap(full) / n
    ensures n * k == full <==> full < TWO_TO_THE_32 && full % n == 0
    ensures full < TWO_TO_THE_32 ==> k == full / n
  {
    var w := Wrap(full);
    assert w == n * (w / n) + w % n;
  }

  predicate EquallyLong(ls: seq<seq<byte>>) {
    forall i :: 0 <= i < |ls| ==> |ls[i]| == |ls[0]|
  }

  function FixedBlock(ls: seq<seq<byte>>): seq<byte>
    requires 1 <= |ls| <= 256
  {
    [(|ls| - 1) as byte] + Flatten(ls)
  }

  lemma {:induction false} EqualLens(ls: seq<seq<byte>>)
    requires ls != [] && EquallyLong(ls)
    ensures |Flatten(ls)| == |ls| * |ls[0]| && Lens(ls) == seq(|ls|, _ => |ls[0]|)
  {
    if |ls| == 1 {
      assert ls[1..] == [];
    } else {
      assert ls[1..][0] == ls[1] && |ls[1]| == |ls[0]|;
      assert forall i :: 0 <= i < |ls| - 1 ==> ls[1..][i] == ls[i + 1];
      EqualLens(ls[1..]);
      var n := |ls| - 1;
      assert (n + 1) * |ls[0]| == n * |ls[0]| + |ls[0]|;
    }
  }

  /** Frames of one size written with fixed-size lacing are read back unchanged. */
  lemma FixedRoundTrip(before: seq<byte>, ls: seq<seq<byte>>, after: seq<byte>)
    requires 1 <= |ls| <= 256 && EquallyLong(ls) && |ls[0]| <= MAX_LACE && |Flatten(ls)| < TWO_TO_THE_32
    ensures Laced(before + FixedBlock(ls) + after, |before|, |before| + |FixedBlock(ls)|, Fixed) == Frames(ls)
  {
    hide Flatten, Cut, HoldsAt, Wrap, EquallyLong, Lens;
    var count: seq<byte> := [(|ls| - 1) as byte];
    var data, p, end := before + FixedBlock(ls) + after, |before|, |before| + |FixedBlock(ls)|;
    assert [] + Flatten(ls) == Flatten(ls);
    BlockHolds(before, count, [], Flatten(ls), after);
    assert data[p] == FixedBlock(ls)[0] == (|ls| - 1) as byte;
    EqualLens(ls);
    SplitIs(|Flatten(ls)|, |ls|, |ls[0]|);
    EquallyIsLaceable(ls);
    CutReads(data, p + 1, end, ls);
  }

  lemma EquallyIsLaceable(ls: seq<seq<byte>>)
    requires ls != [] && EquallyLong(ls) && |ls[0]| <= MAX_LACE
    ensures Laceable(ls)
  {
  }

  lemma MoreTimes(n: nat, a: nat, b: nat)
    ensures a < b ==> n * b >= n * a + n
  {
    if a < b {
      var d := b - a - 1;
      assert n * b == n * a + n + n * d;
    }
  }

  lemma QuotientIs(n: nat, k: nat, q: nat, r: nat)
    requires n * k == n * q + r && r < n
    ensures q == k
  {
    MoreTimes(n, q, k);
    MoreTimes(n, k, q);
  }

  lemma SplitIs(w: nat, n: nat, k: nat)
    requires n > 0 && w == n * k && w < TWO_TO_THE_32
    ensures Wrap(w) / n == k
  {
    assert w == n * (w / n) + w % n;
    QuotientIs(n, k, w / n, w % n);
  }

  // ---------- what any block that is read says ----------

  lemma {:induction false} XiphSizeIs(data: seq<byte>, p: nat, end: nat, acc: nat) returns (v: nat)
    requires XiphSize(data, p, end, acc).Size?
    ensures var s := XiphSize(data, p, end, acc);
      s.value == Wrap(acc + v) && s.next == p + |XiphEncoded(v)| && HoldsAt(data, p, XiphEncoded(v))
    decreases |data| - p
  {
    if data[p] == 255 {
      var w := XiphSizeIs(data, p + 1, end, Wrap(acc + 255));
      v := w + 255;
      WrapWrap(acc + 255, w);
      HoldsBoth(data, p, [255], XiphEncoded(w));
    } else {
      v := data[p] as nat;
    }
  }

  lemma HoldsBoth(data: seq<byte>, p: nat, a: seq<byte>, b: seq<byte>)
    requires HoldsAt(data, p, a) && HoldsAt(data, p + |a|, b)
    ensures HoldsAt(data, p, a + b)
  {
    assert data[p..p + |a + b|] == data[p..p + |a|] + data[p + |a|..p + |a| + |b|];
  }

  predicate AllWrapped(sizes: seq<nat>, vs: seq<nat>) {
    |sizes| >= |vs| && forall i :: 0 <= i < |vs| ==> sizes[i] == Wrap(vs[i])
  }

  lemma {:induction false} XiphSizesAre(data: seq<byte>, p: nat, end: nat, n: nat) returns (vs: seq<nat>)
    requires XiphSizes(data, p, end, n).Sizes? && p <= |data|
    ensures var s := XiphSizes(data, p, end, n);
      && |vs| == n == |s.sizes| && AllWrapped(s.sizes, vs)
      && s.body == p + |XiphEncodedAll(vs)| && HoldsAt(data, p, XiphEncodedAll(vs))
    decreases n
  {
    hide HoldsAt, XiphSize, XiphEncoded;
    if n == 0 {
      vs := [];
      HoldsNone(data, p);
    } else {
      XiphSizeBound(data, p, end, 0);
      var v := XiphSizeIs(data, p, end, 0);
      var rest := XiphSizesAre(data, XiphSize(data, p, end, 0).next, end, n - 1);
      vs := [v] + rest;
      HoldsBoth(data, p, XiphEncoded(v), XiphEncodedAll(rest));
      assert vs[1..] == rest;
    }
  }

  lemma HoldsNone(data: seq<byte>, p: nat)
    requires p <= |data|
    ensures HoldsAt(data, p, [])
  {
  }

  /** Numbers that the signed form has, one after the other. */
  predicate SignedFit(ds: seq<int>, ws: seq<nat>) {
    && |ds| == |ws|
    && forall i :: 0 <= i < |ds| ==> 1 <= ws[i] <= 8 && -(Bias(ws[i]) as int) <= ds[i] <= Bias(ws[i])
  }

  function SignedAll(ds: seq<int>, ws: seq<nat>): seq<byte>
    requires SignedFit(ds, ws)
  {
    if ds == [] then [] else EncodedSigned(ds[0], ws[0]) + SignedAll(ds[1..], ws[1..])
  }

  function SizeBefore(prev: nat, sizes: seq<nat>, i: nat): nat
    requires i <= |sizes|
  {
    if i == 0 then prev else sizes[i - 1]
  }

  /** Each size is the one before plus the difference announced for it, in 32 bits. */
  predicate Accumulates(prev: nat, ds: seq<int>, sizes: seq<nat>) {
    && |sizes| >= |ds|
    && forall i :: 0 <= i < |ds| ==> sizes[i] == Wrap(SizeBefore(prev, sizes, i) + ds[i])
  }

  lemma SignedIs(data: seq<byte>, p: nat)
    requires p <= |data| && Decoded(data[p..]).Known?
    ensures var d := Decoded(data[p..]);
      && 1 <= d.width <= 8 && HoldsAt(data, p, Encoded(d.value, d.width)) && d.value < Limit(d.width) - 1
      && -(Bias(d.width) as int) <= d.value - Bias(d.width) <= Bias(d.width)
  {
    hide Encoded;
    DecodedIsEncoding(data[p..]);
    var d := Decoded(data[p..]);
    LimitStep(d.width);
    assert data[p..][..d.width] == data[p..p + d.width];
  }

  lemma AccumulatesOn(prev: nat, d: int, ds: seq<int>, sizes: seq<nat>)
    requires Accumulates(Wrap(prev + d), ds, sizes)
    ensures Accumulates(prev, [d] + ds, [Wrap(prev + d)] + sizes)
  {
    var es, all := [d] + ds, [Wrap(prev + d)] + sizes;
    forall i | 0 <= i < |es| ensures all[i] == Wrap(SizeBefore(prev, all, i) + es[i]) {
      if i > 0 {
        assert all[i] == sizes[i - 1] && es[i] == ds[i - 1];
        assert SizeBefore(prev, all, i) == SizeBefore(Wrap(prev + d), sizes, i - 1);
      }
    }
  }

  lemma {:induction false} EbmlSizesAre(data: seq<byte>, p: nat, end: nat, prev: nat, n: nat)
    returns (ds: seq<int>, ws: seq<nat>)
    requires p <= |data| && EbmlSizes(data, p, end, prev, n).Sizes?
    ensures |ds| == n && SignedFit(ds, ws)
    ensures var s := EbmlSizes(data, p, end, prev, n);
      && |s.sizes| == n && Accumulates(prev, ds, s.sizes)
      && s.body == p + |SignedAll(ds, ws)| && HoldsAt(data, p, SignedAll(ds, ws))
    decreases n
  {
    hide HoldsAt, Decoded, Bias, Encoded, Accumulates;
    if n == 0 {
      ds, ws := [], [];
      HoldsNone(data, p);
      NothingAccumulates(prev);
    } else {
      var d := Decoded(data[p..]);
      SignedIs(data, p);
      var e, w := d.value - Bias(d.width), d.width;
      var es, us := EbmlSizesAre(data, p + w, end, Wrap(prev + e), n - 1);
      ds, ws := [e] + es, [w] + us;
      AccumulatesOn(prev, e, es, EbmlSizes(data, p + w, end, Wrap(prev + e), n - 1).sizes);
      assert ds[1..] == es && ws[1..] == us;
      HoldsBoth(data, p, EncodedSigned(e, w), SignedAll(es, us));
    }
  }

  lemma NothingAccumulates(prev: nat)
    ensures Accumulates(prev, [], [])
  {
  }

  /** What the octets between the block's start and its first frame say of the frames' sizes: nothing
      without lacing; their number; and all sizes but the last one, or the first size and the
      differences to it. A size of more than 32 bits counts modulo 2^32. */
  ghost predicate HeaderSays(header: seq<byte>, kind: Lacing, sizes: seq<nat>) {
    match kind
    case None => header == [] && |sizes| == 1
    case Fixed => |header| == 1 && forall i :: 0 <= i < |sizes| ==> sizes[i] == sizes[0]
    case Xiph => header != [] && exists vs :: XiphHeaderSays(header[1..], sizes, vs)
    case Ebml => header != [] && exists first, w, ds, ws :: EbmlHeaderSays(header[1..], sizes, first, w, ds, ws)
  }

  predicate XiphHeaderSays(header: seq<byte>, sizes: seq<nat>, vs: seq<nat>) {
    |vs| == |sizes| - 1 && AllWrapped(sizes, vs) && header == XiphEncodedAll(vs)
  }

  ghost predicate EbmlHeaderSays(header: seq<byte>, sizes: seq<nat>, first: nat, w: nat, ds: seq<int>, ws: seq<nat>) {
    && 1 <= w <= 8 && first < Limit(w) - 1 && SignedFit(ds, ws) && header == Encoded(first, w) + SignedAll(ds, ws)
    && (|sizes| >= 2 ==> |ds| == |sizes| - 2 && sizes[0] == Wrap(first) && Accumulates(sizes[0], ds, sizes[1..]))
    && (|sizes| == 1 ==> ds == [] && first % TWO_TO_THE_32 == 0)
  }

  /** Whenever reading succeeds, the block is a header, whose first octet says how many frames there
      are and whose others give their sizes, followed by the frames, byte for byte up to the end. */
  lemma {:induction false} LacingIsPartition(data: seq<byte>, pos: nat, end: nat, kind: Lacing) returns (body: nat)
    requires pos <= |data| && Laced(data, pos, end, kind).Frames?
    ensures pos <= body <= end && (kind != None ==> pos < body) && body <= |data| && (body < end ==> end <= |data|)
    ensures var ls := Laced(data, pos, end, kind).laces;
      && |ls| == LaceCount(data, pos, kind)
      && HeaderSays(data[pos..body], kind, Lens(ls))
      && Flatten(ls) == if body < end then data[body..end] else []
  {
    hide Decoded, Cut, Flatten, XiphSizes, EbmlSizes, XiphEncodedAll, Encoded, SignedAll, Bias, Accumulates;
    var s := LaceSizes(data, pos, end, kind);
    body := s.body;
    CutIsPartition(data, body, end, s.sizes);
    var ls := Laced(data, pos, end, kind).laces;
    assert Lens(ls) == s.sizes;
    match kind {
      case None =>
      case Fixed =>
      case Xiph =>
        XiphHeaderIs(data, pos, end);
      case Ebml =>
        EbmlHeaderIs(data, pos, end);
    }
  }

  lemma XiphHeaderIs(data: seq<byte>, pos: nat, end: nat)
    requires pos < |data| && LaceSizes(data, pos, end, Xiph).Sizes?
    ensures var s := LaceSizes(data, pos, end, Xiph);
      && pos < s.body <= |data| && |s.sizes| == LaceCount(data, pos, Xiph)
      && HeaderSays(data[pos..s.body], Xiph, s.sizes)
  {
    hide XiphSizes, XiphEncodedAll, Wrap;
    var n := data[pos] as nat;
    var s := XiphSizes(data, pos + 1, end, n);
    var vs := XiphSizesAre(data, pos + 1, end, n);
    var sizes := LaceSizes(data, pos, end, Xiph).sizes;
    assert data[pos..s.body][1..] == data[pos + 1..s.body] == XiphEncodedAll(vs);
    assert XiphHeaderSays(data[pos..s.body][1..], sizes, vs);
  }

  lemma EbmlHeaderIs(data: seq<byte>, pos: nat, end: nat)
    requires pos < |data| && LaceSizes(data, pos, end, Ebml).Sizes?
    requires Laced(data, pos, end, Ebml).Frames?
    ensures var s := LaceSizes(data, pos, end, Ebml);
      && pos < s.body <= |data| && |s.sizes| == LaceCount(data, pos, Ebml)
      && HeaderSays(data[pos..s.body], Ebml, s.sizes)
  {
    hide Decoded, EbmlSizes, SignedAll, Encoded, Accumulates, Bias, Wrap, Cut;
    var p, n := pos + 1, data[pos] as nat + 1;
    var d := Decoded(data[p..]);
    SignedIs(data, p);
    var q, s := p + d.width, LaceSizes(data, pos, end, Ebml);
    var ds: seq<int>, ws: seq<nat> := [], [];
    if n == 1 {
      SingleEbmlLace(data, pos, end);
      assert SignedAll(ds, ws) == [] by { NoSigned(); }
      assert Encoded(d.value, d.width) + [] == Encoded(d.value, d.width);
    } else {
      ds, ws := EbmlSizesAre(data, q, end, Wrap(d.value), n - 2);
      HoldsBoth(data, p, Encoded(d.value, d.width), SignedAll(ds, ws));
      var e := EbmlSizes(data, q, end, Wrap(d.value), n - 2);
      AccumulatesMore(Wrap(d.value), ds, e.sizes, s.sizes[n - 1]);
      assert s.sizes[1..] == e.sizes + [s.sizes[n - 1]];
    }
    assert data[pos..s.body][1..] == data[p..s.body];
    assert EbmlHeaderSays(data[pos..s.body][1..], s.sizes, d.value, d.width, ds, ws);
  }

  lemma NoSigned()
    ensures SignedFit([], []) && SignedAll([], []) == []
  {
  }

  lemma AccumulatesMore(prev: nat, ds: seq<int>, sizes: seq<nat>, last: nat)
    requires Accumulates(prev, ds, sizes)
    ensures Accumulates(prev, ds, sizes + [last])
  {
    assert forall i :: 0 <= i < |ds| ==> SizeBefore(prev, sizes + [last], i) == SizeBefore(prev, sizes, i);
  }
}
