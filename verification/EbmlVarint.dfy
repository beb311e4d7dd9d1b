/** EBML variable-size integers (sections 4 and 6 of RFC 8794), read from a buffer and from a
    stream, and the signed and fixed-size integers built on them (demux/ebml.c). */
module EbmlVarint {
  import opened Octets

  const TWO_TO_THE_64: nat := 0x1_0000_0000_0000_0000
  const TWO_TO_THE_63: nat := 0x8000_0000_0000_0000
  const UINT_INVALID: nat := 0xFFFF_FFFF_FFFF_FFFF
  const INT_INVALID: int := 0x7FFF_FFFF_FFFF_FFFF
  const ID_INVALID: nat := 0xFFFF_FFFF

  // ---------- the encoding ----------

  /** Big-endian value. */
  function BigEndian(bs: seq<byte>): nat {
    if bs == [] then 0 else BigEndian(bs[..|bs| - 1]) * 256 + bs[|bs| - 1]
  }

  function Pow(b: nat, n: nat): (p: nat)
    ensures b > 0 ==> p > 0
  {
    if n == 0 then 1 else b * Pow(b, n - 1)
  }

  /** The `n` bytes of a number, most significant first. */
  function Bytes(v: nat, n: nat): (bs: seq<byte>)
    ensures |bs| == n
  {
    if n == 0 then [] else Bytes(v / 256, n - 1) + [v % 256]
  }

  /** How many values `w` octets have: seven bits of each carry data. */
  function Limit(w: nat): nat { Pow(128, w) }

  /** `v` in `w` octets: `w - 1` zero bits, a one bit, and `7 * w` bits of data. */
  function Encoded(v: nat, w: nat): (bs: seq<byte>)
    ensures |bs| == w
  {
    Bytes(Limit(w) + v, w)
  }

  /** How many octets a number has whose first one is `b`; 9 if `b` starts none. */
  function Width(b: byte): (w: nat)
    ensures 1 <= w <= 9
  {
    if b >= 128 then 1 else if b >= 64 then 2 else if b >= 32 then 3 else if b >= 16 then 4
    else if b >= 8 then 5 else if b >= 4 then 6 else if b >= 2 then 7 else if b >= 1 then 8 else 9
  }

  /** The bit that says a number has `w` octets, in its first octet. */
  function Mask(w: nat): (m: nat)
    requires 1 <= w <= 8
    ensures m > 0
  {
    [128, 64, 32, 16, 8, 4, 2, 1][w - 1]
  }

  datatype Vint = Truncated | Malformed | Unknown(width: nat) | Known(value: nat, width: nat)

  /** The number `data` starts with; all data bits set is reserved for an unknown length. */
  function Decoded(data: seq<byte>): Vint {
    if data == [] then Truncated
    else
      var w := Width(data[0]);
      if w == 9 then Malformed
      else if |data| < w then Truncated
      else
        var v := BigEndian(data[..w]) - Limit(w);
        if v == Limit(w) - 1 then Unknown(w) else Known(if v < 0 then 0 else v, w)
  }

  lemma BigEndianSnoc(bs: seq<byte>, b: byte)
    ensures BigEndian(bs + [b]) == BigEndian(bs) * 256 + b
  {
    assert (bs + [b])[..|bs + [b]| - 1] == bs;
  }

  lemma {:induction false} BigEndianBound(bs: seq<byte>)
    ensures BigEndian(bs) < Pow(256, |bs|)
  {
    if bs != [] {
      BigEndianBound(bs[..|bs| - 1]);
    }
  }

  lemma {:induction false} BytesInverse(v: nat, n: nat)
    requires v < Pow(256, n)
    ensures BigEndian(Bytes(v, n)) == v
  {
    if n > 0 {
      BytesInverse(v / 256, n - 1);
      BigEndianSnoc(Bytes(v / 256, n - 1), v % 256);
    }
  }

  lemma {:induction false} BigEndianInverse(bs: seq<byte>)
    ensures Bytes(BigEndian(bs), |bs|) == bs
  {
    if bs != [] {
      BigEndianInverse(bs[..|bs| - 1]);
      assert bs == bs[..|bs| - 1] + [bs[|bs| - 1]];
    }
  }

  /** Seven data bits an octet, or one mask bit and the rest of the first octet. */
  lemma {:induction false} LimitIs(w: nat)
    requires 1 <= w <= 8
    ensures Limit(w) == Mask(w) * Pow(256, w - 1)
  {
    LimitStep(w);
    if w > 1 {
      LimitIs(w - 1);
      assert Mask(w - 1) == 2 * Mask(w);
      assert Mask(w) * Pow(256, w - 1) == Mask(w) * 256 * Pow(256, w - 2);
    }
  }

  lemma LimitStep(w: nat)
    requires w >= 1
    ensures Limit(w) == 128 * Limit(w - 1) && Pow(256, w) == 256 * Pow(256, w - 1)
  {
  }

  lemma TopStep(b: nat, p: nat, v: nat, last: nat)
    requires b * p <= v < (b + 1) * p && last < 256
    ensures b * (256 * p) <= v * 256 + last < (b + 1) * (256 * p)
  {
    assert b * (256 * p) == 256 * (b * p);
    assert (b + 1) * (256 * p) == 256 * ((b + 1) * p);
  }

  /** The first octet bounds the value. */
  lemma {:induction false} TopByte(bs: seq<byte>)
    requires bs != []
    ensures var b: nat := bs[0]; b * Pow(256, |bs| - 1) <= BigEndian(bs) < (b + 1) * Pow(256, |bs| - 1)
  {
    if |bs| > 1 {
      TopByte(bs[..|bs| - 1]);
      LimitStep(|bs| - 1);
      TopStep(bs[0], Pow(256, |bs| - 2), BigEndian(bs[..|bs| - 1]), bs[|bs| - 1]);
    } else {
      assert bs[..0] == [];
    }
  }

  lemma WidthIs(b: byte)
    ensures Width(b) <= 8 ==> Mask(Width(b)) <= b < 2 * Mask(Width(b))
    ensures forall w :: 1 <= w <= 8 && Mask(w) <= b < 2 * Mask(w) ==> Width(b) == w
  {
    forall w | 1 <= w <= 8 && Mask(w) <= b < 2 * Mask(w) ensures Width(b) == w {
      assert w == 1 || w == 2 || w == 3 || w == 4 || w == 5 || w == 6 || w == 7 || w == 8;
    }
  }

  lemma Times(a: nat, b: nat, p: nat)
    requires a <= b
    ensures a * p <= b * p
  {
  }

  /** A `w`-octet number lies between the marker and twice the marker. */
  lemma VintBounds(bs: seq<byte>)
    requires bs != [] && |bs| == Width(bs[0])
    ensures Width(bs[0]) <= 8 ==> Limit(|bs|) <= BigEndian(bs) < 2 * Limit(|bs|)
  {
    hide Pow, Limit, BigEndian;
    if Width(bs[0]) <= 8 {
      var w, p := |bs|, Pow(256, |bs| - 1);
      var b: nat := bs[0];
      WidthIs(bs[0]);
      TopByte(bs);
      LimitIs(w);
      Times(Mask(w), b, p);
      Times(b + 1, 2 * Mask(w), p);
      assert 2 * Mask(w) * p == 2 * (Mask(w) * p);
    }
  }

  lemma TopBounds(b: nat, m: nat, p: nat, v: nat)
    requires b * p <= v < (b + 1) * p && m * p <= v < 2 * (m * p)
    ensures m <= b < 2 * m
  {
    assert 2 * m * p == 2 * (m * p);
    if b < m {
      Times(b + 1, m, p);
    } else if b >= 2 * m {
      Times(2 * m, b, p);
    }
  }

  lemma EncodedStarts(v: nat, w: nat)
    requires 1 <= w <= 8 && v < Limit(w)
    ensures Width(Encoded(v, w)[0]) == w && BigEndian(Encoded(v, w)) == Limit(w) + v
  {
    var bs, p := Encoded(v, w), Pow(256, w - 1);
    LimitIs(w);
    LimitStep(w);
    assert Mask(w) <= 128;
    Times(2 * Mask(w), 256, p);
    assert 2 * Mask(w) * p == 2 * (Mask(w) * p);
    BytesInverse(Limit(w) + v, w);
    TopByte(bs);
    TopBounds(bs[0], Mask(w), p, Limit(w) + v);
    WidthIs(bs[0]);
  }

  /** Decoding inverts encoding at every width, with the all-ones value reserved. */
  lemma DecodeEncoded(v: nat, w: nat, rest: seq<byte>)
    requires 1 <= w <= 8 && v < Limit(w)
    ensures Decoded(Encoded(v, w) + rest) == if v == Limit(w) - 1 then Unknown(w) else Known(v, w)
  {
    EncodedStarts(v, w);
    var data := Encoded(v, w) + rest;
    assert data[..w] == Encoded(v, w) && data[0] == Encoded(v, w)[0];
  }

  /** Octets of the width that the first one announces are the encoding of what they denote. */
  lemma WholeIsEncoding(bs: seq<byte>)
    requires bs != [] && |bs| == Width(bs[0]) <= 8
    ensures Limit(|bs|) <= BigEndian(bs) < 2 * Limit(|bs|)
    ensures bs == Encoded(BigEndian(bs) - Limit(|bs|), |bs|)
  {
    hide BigEndian, Limit, Bytes, Width;
    VintBounds(bs);
    BigEndianInverse(bs);
  }

  /** And what is decoded is an encoding. */
  lemma DecodedIsEncoding(data: seq<byte>)
    ensures match Decoded(data)
      case Known(v, w) => 1 <= w <= 8 && w <= |data| && v < Limit(w) - 1 && data[..w] == Encoded(v, w)
      case Unknown(w) => 1 <= w <= 8 && w <= |data| && data[..w] == Encoded(Limit(w) - 1, w)
      case _ => true
  {
    hide BigEndian, Limit, Encoded, Width;
    if data != [] && Width(data[0]) <= |data| && Width(data[0]) <= 8 {
      WholeIsEncoding(data[..Width(data[0])]);
    }
  }

  /** What is rejected starts with no encoding: either the first octet starts none, or the octets
      it asks for are not all there. */
  lemma RejectedIsNoEncoding(data: seq<byte>, v: nat, w: nat)
    requires Decoded(data).Malformed? || Decoded(data).Truncated?
    requires 1 <= w <= 8 && v < Limit(w)
    ensures !(Encoded(v, w) <= data)
  {
    EncodedStarts(v, w);
    hide BigEndian, Limit, Bytes;
  }

  // ---------- reading lengths ----------

  /** A single bit of a byte. */
  predicate HasBit(r: nat, mask: nat)
    requires mask > 0
  {
    r / mask % 2 == 1
  }

  lemma BitTest(r: nat, w: nat)
    requires 1 <= w <= 8 && r < 2 * Mask(w)
    ensures HasBit(r, Mask(w)) <==> r >= Mask(w)
    ensures r % Mask(w) == if r >= Mask(w) then r - Mask(w) else r
    ensures w < 8 ==> Mask(w) / 2 == Mask(w + 1) && (r < Mask(w) ==> r < 2 * Mask(w + 1))
  {
    assert w == 1 || w == 2 || w == 3 || w == 4 || w == 5 || w == 6 || w == 7 || w == 8;
  }

  /** Finds the width of a number from its first octet; 9 if there is none. */
  method FindWidth(r: byte) returns (len: nat, mask: nat)
    ensures len == Width(r) && (len <= 8 ==> mask == Mask(len))
  {
    len, mask := 1, 0x80;
    BitTest(r, 1);
    while !HasBit(r, mask)
      invariant 1 <= len <= 8 && mask == Mask(len) && r < 2 * mask
      invariant HasBit(r, mask) <==> r >= mask
      decreases 9 - len
    {
      BitTest(r, len);
      len := len + 1;
      if len > 8 {
        return;
      }
      mask := mask / 2;
      BitTest(r, len);
    }
    WidthIs(r);
  }

  /** The octets seen so far, without the marker: `r` is below `m`, and all data bits are set
      exactly if every octet counted as all ones. */
  predicate Accumulated(bs: seq<byte>, r: nat, m: nat, ones: nat) {
    && bs != [] && BigEndian(bs) == m + r && r < m
    && ones <= |bs| && (ones == |bs| <==> r == m - 1)
  }

  lemma AccumulateFirst(b: byte, w: nat)
    requires w == Width(b) <= 8
    ensures b % Mask(w) < Mask(w)
    ensures Accumulated([b], b % Mask(w), Mask(w), if b % Mask(w) == Mask(w) - 1 then 1 else 0)
  {
    WidthIs(b);
    BitTest(b, w);
    BigEndianSnoc([], b);
  }

  lemma AccumulateNext(bs: seq<byte>, r: nat, m: nat, ones: nat, b: byte)
    requires Accumulated(bs, r, m, ones)
    ensures Accumulated(bs + [b], r * 256 + b, m * 256, if b == 255 then ones + 1 else ones)
  {
    BigEndianSnoc(bs, b);
  }

  /** ebml_parse_length: -1 and a length of -1 unless the buffer starts with a known length. */
  method ParseLength(data: seq<byte>) returns (r: nat, length: int)
    ensures match Decoded(data)
      case Known(v, w) => r == v && length == w
      case _ => r == UINT_INVALID && length == -1
  {
    hide TailRead, Accumulated, BigEndian, Limit, Pow, ShiftIn, Mask;
    length := -1;
    if data == [] {
      return UINT_INVALID, length;
    }
    var len, mask := FindWidth(data[0]);
    if len > 8 {
      return UINT_INVALID, length;
    }
    r := data[0] % mask;
    var ones := if r == mask - 1 then 1 else 0;
    TailFirst(data, len);
    for i := 1 to len
      invariant i <= |data| && TailRead(data, len, i, r, ones)
    {
      if i == |data| {
        return UINT_INVALID, length;
      }
      TailStep(data, len, i, r, ones, data[i]);
      if data[i] == 255 {
        ones := ones + 1;
      }
      r := ShiftIn(r, data[i]);
    }
    TailDone(data, len, r, ones);
    TailBelow(data, len, r, ones);
    if ones == len {
      return UINT_INVALID, length;
    }
    length := len;
  }

  lemma NextPower(m: nat, i: nat)
    requires i >= 1
    ensures m * Pow(256, i - 1) * 256 == m * Pow(256, i)
  {
    LimitStep(i);
    assert m * Pow(256, i - 1) * 256 == m * (256 * Pow(256, i - 1));
  }

  /** stream_read_char at position `pos`: -256 at the end of the stream. */
  function CharAt(data: seq<byte>, pos: nat): int {
    if pos < |data| then data[pos] else -256
  }

  /** `v << 8 | c` in 64 bits; the end of the stream sets all bits but the lowest eight. */
  function ShiftIn(v: nat, c: int): (r: nat)
    requires -256 <= c < 256
    ensures r < TWO_TO_THE_64 && (c < 0 ==> r >= TWO_TO_THE_63)
  {
    if c < 0 then TWO_TO_THE_64 - 256 else (v * 256 + c) % TWO_TO_THE_64
  }

  function LengthValue(d: Vint): nat {
    if d.Known? then d.value else UINT_INVALID
  }

  function LengthEnd(data: seq<byte>, pos: nat): nat
    requires pos <= |data|
  {
    match Decoded(data[pos..])
    case Known(_, w) => pos + w
    case Unknown(w) => pos + w
    case Malformed => pos + 1
    case Truncated => |data|
  }

  /** Eight octets carry 56 bits. */
  lemma LimitFits(w: nat)
    requires 1 <= w <= 8
    ensures Limit(w) <= 0x100_0000_0000_0000
  {
    LimitGrows(w, 8);
    assert Limit(3) == 0x20_0000;
    assert Limit(6) == 128 * (128 * (128 * Limit(3)));
    assert Limit(8) == 128 * (128 * Limit(6));
  }

  lemma {:induction false} LimitGrows(w: nat, x: nat)
    requires w <= x
    ensures Limit(w) <= Limit(x)
    decreases x - w
  {
    if w < x {
      LimitGrows(w + 1, x);
    }
  }

  lemma AccumulatedFits(w: nat, i: nat, bs: seq<byte>, r: nat, ones: nat)
    requires 1 <= i <= w <= 8 && Accumulated(bs, r, Mask(w) * Pow(256, i - 1), ones)
    ensures r < 0x100_0000_0000_0000
  {
    hide Pow, Limit, BigEndian;
    PowGrows(i - 1, w - 1);
    Times(Pow(256, i - 1), Pow(256, w - 1), Mask(w));
    LimitIs(w);
    LimitFits(w);
  }

  lemma {:induction false} PowGrows(i: nat, j: nat)
    requires i <= j
    ensures Pow(256, i) <= Pow(256, j)
    decreases j - i
  {
    if i < j {
      PowGrows(i + 1, j);
    }
  }

  /** The octets after the first one; past the end of the stream the accumulator overflows. */
  predicate TailRead(d: seq<byte>, j: nat, i: nat, len: nat, ones: nat)
    requires 1 <= j <= 8 && 1 <= i
  {
    if i <= |d| then Accumulated(d[..i], len, Mask(j) * Pow(256, i - 1), ones)
    else ones < i && len >= TWO_TO_THE_63
  }

  lemma TailStep(d: seq<byte>, j: nat, i: nat, len: nat, ones: nat, c: int)
    requires 1 <= i < j <= 8 && d != [] && TailRead(d, j, i, len, ones)
    requires c == CharAt(d, i)
    ensures ShiftIn(len, c) % 256 == if c < 0 then 0 else c
    ensures TailRead(d, j, i + 1, ShiftIn(len, c), if c == 255 then ones + 1 else ones)
  {
    if i < |d| {
      hide BigEndian, Accumulated, Mask;
      AccumulatedFits(j, i, d[..i], len, ones);
      AccumulateNext(d[..i], len, Mask(j) * Pow(256, i - 1), ones, d[i]);
      NextPower(Mask(j), i);
      assert d[..i] + [d[i]] == d[..i + 1];
    } else if i == |d| {
      hide BigEndian, Mask;
      assert ones <= i;
    }
  }

  lemma TailDone(d: seq<byte>, j: nat, len: nat, ones: nat)
    requires d != [] && j == Width(d[0]) <= 8 && TailRead(d, j, j, len, ones)
    ensures j == ones || len >= TWO_TO_THE_63 ==> Decoded(d) == if j <= |d| then Unknown(j) else Truncated
    ensures j != ones && len < TWO_TO_THE_63 ==> Decoded(d) == Known(len, j)
  {
    LimitIs(j);
    LimitFits(j);
    hide BigEndian, Width, Limit;
  }

  /** ebml_read_length, from position `pos` of a stream: the invalid value unless a known length
      is there, and never a length from data that is cut off. */
  method ReadLength(data: seq<byte>, pos: nat) returns (len: nat, pos': nat)
    requires pos <= |data|
    ensures len == LengthValue(Decoded(data[pos..])) && pos' == LengthEnd(data, pos)
  {
    hide TailRead, Accumulated, BigEndian, Limit, Pow, ShiftIn, Mask;
    var c := CharAt(data, pos);
    pos' := pos;
    if c < 0 {
      return UINT_INVALID, pos';
    }
    pos' := pos + 1;
    var j, mask := FindWidth(c);
    if j > 8 {
      return UINT_INVALID, pos';
    }
    ghost var d := data[pos..];
    len := c % mask;
    var ones := if len == mask - 1 then 1 else 0;
    TailFirst(d, j);
    for i := 1 to j
      invariant pos' == if |d| < i then |data| else pos + i
      invariant TailRead(d, j, i, len, ones)
    {
      c := CharAt(data, pos');
      TailStep(d, j, i, len, ones, c);
      len := ShiftIn(len, c);
      if len % 256 == 0xFF {
        ones := ones + 1;
      }
      if c >= 0 {
        pos' := pos' + 1;
      }
    }
    TailDone(d, j, len, ones);
    if j == ones {
      return UINT_INVALID, pos';
    }
    if len >= TWO_TO_THE_63 {
      return UINT_INVALID, pos';
    }
  }

  lemma TailBelow(d: seq<byte>, j: nat, len: nat, ones: nat)
    requires d != [] && j == Width(d[0]) <= 8 && j <= |d| && TailRead(d, j, j, len, ones)
    ensures len < TWO_TO_THE_63
  {
    AccumulatedFits(j, j, d[..j], len, ones);
  }

  lemma TailFirst(d: seq<byte>, j: nat)
    requires d != [] && j == Width(d[0]) <= 8
    ensures var r := d[0] % Mask(j); TailRead(d, j, 1, r, if r == Mask(j) - 1 then 1 else 0)
  {
    AccumulateFirst(d[0], j);
    assert d[..1] == [d[0]];
  }

  // ---------- signed lengths ----------

  /** Half the values of a `w`-octet number: what is added to a signed one. */
  function Bias(w: nat): (b: nat)
    requires w >= 1
  {
    64 * Pow(128, w - 1) - 1
  }

  /** ebml_read_signed_length: the width is how far the position moved. */
  method ReadSignedLength(data: seq<byte>, pos: nat) returns (num: int, pos': nat)
    requires pos <= |data|
    ensures pos' == LengthEnd(data, pos)
    ensures match Decoded(data[pos..])
      case Known(v, w) => w >= 1 && num == v - Bias(w)
      case _ => num == INT_INVALID
  {
    DecodedIsEncoding(data[pos..]);
    var unum;
    unum, pos' := ReadLength(data, pos);
    var l := pos' - pos;
    if unum == UINT_INVALID {
      UnknownIsInvalid(data[pos..]);
      return INT_INVALID, pos';
    }
    num := unum - (64 * Pow(128, l - 1) - 1);
  }

  /** No known length is the invalid value. */
  lemma UnknownIsInvalid(data: seq<byte>)
    ensures LengthValue(Decoded(data)) == UINT_INVALID <==> !Decoded(data).Known?
  {
    DecodedIsEncoding(data);
    if Decoded(data).Known? {
      LimitFits(Decoded(data).width);
    }
  }

  /** The signed form of `n` in `w` octets: the unsigned form of `n` plus the bias. */
  function EncodedSigned(n: int, w: nat): seq<byte>
    requires w >= 1 && n + Bias(w) >= 0
  {
    Encoded(n + Bias(w), w)
  }

  /** Reading inverts the signed encoding for every number that has one. */
  lemma SignedRoundTrip(n: int, w: nat, rest: seq<byte>)
    requires 1 <= w <= 8 && -(Bias(w) as int) <= n <= Bias(w)
    ensures Decoded(EncodedSigned(n, w) + rest) == Known(n + Bias(w), w)
    ensures LengthEnd(EncodedSigned(n, w) + rest, 0) == w
  {
    LimitStep(w);
    DecodeEncoded(n + Bias(w), w, rest);
    var data := EncodedSigned(n, w) + rest;
    assert data[0..] == data;
  }

  // ---------- fixed-size integers ----------

  /** Two's complement value of big-endian octets. */
  function TwosComplement(bs: seq<byte>): int {
    if bs != [] && bs[0] >= 128 then BigEndian(bs) - Pow(256, |bs|) else BigEndian(bs)
  }

  /** It is the number of that range which is congruent to the octets. */
  lemma TwosComplementRange(bs: seq<byte>)
    requires bs != []
    ensures var half := 128 * Pow(256, |bs| - 1);
      -half <= TwosComplement(bs) < half && TwosComplement(bs) % Pow(256, |bs|) == BigEndian(bs)
  {
    var p := Pow(256, |bs| - 1);
    var b: nat := bs[0];
    LimitStep(|bs|);
    BigEndianBound(bs);
    TopByte(bs);
    if bs[0] >= 128 {
      Times(128, b, p);
      ModNegative(BigEndian(bs), Pow(256, |bs|));
    } else {
      Times(b + 1, 128, p);
      ModSmall(BigEndian(bs), Pow(256, |bs|));
    }
  }

  lemma ModSmall(v: nat, m: nat)
    requires v < m
    ensures v % m == v
  {
  }

  lemma ModNegative(v: nat, m: nat)
    requires v < m
    ensures (v - m) % m == v
  {
    assert v - m == m * -1 + v;
  }

  /** The sign-extended accumulator after some octets: in 64 bits, a negative number so far is that
      many octets below 2^64. */
  predicate Extended(bs: seq<byte>, negative: bool, r: nat) {
    |bs| <= 8 && r == BigEndian(bs) + if negative then TWO_TO_THE_64 - Pow(256, |bs|) else 0
  }

  lemma PowerOfEight(n: nat)
    requires n <= 8
    ensures Pow(256, n) <= TWO_TO_THE_64 && (n == 8 ==> Pow(256, n) == TWO_TO_THE_64)
  {
    PowGrows(n, 8);
    assert Pow(256, 2) == 0x1_0000;
    assert Pow(256, 4) == 256 * (256 * Pow(256, 2));
    assert Pow(256, 6) == 256 * (256 * Pow(256, 4));
    assert Pow(256, 8) == 256 * (256 * Pow(256, 6));
  }

  lemma ExtendNext(bs: seq<byte>, negative: bool, r: nat, b: byte)
    requires Extended(bs, negative, r) && |bs| < 8
    ensures Extended(bs + [b], negative, ShiftIn(r, b))
  {
    var n := |bs|;
    LimitStep(n + 1);
    PowerOfEight(n + 1);
    BigEndianSnoc(bs, b);
    BigEndianBound(bs + [b]);
    var v := BigEndian(bs + [b]);
    if negative {
      assert r * 256 + b == 255 * TWO_TO_THE_64 + (TWO_TO_THE_64 - Pow(256, n + 1) + v);
    }
  }

  lemma ExtendNone(negative: bool)
    ensures Extended([], negative, if negative then TWO_TO_THE_64 - 1 else 0) && TwosComplement([]) == 0
  {
  }

  function AsInt64(r: nat): int
    requires r < TWO_TO_THE_64
  {
    if r >= TWO_TO_THE_63 then r - TWO_TO_THE_64 else r
  }

  /** What the accumulator means once all octets are in. */
  lemma ExtendedIs(bs: seq<byte>, r: nat)
    requires bs != [] && Extended(bs, bs[0] >= 128, r)
    ensures r < TWO_TO_THE_64 && AsInt64(r) == TwosComplement(bs)
  {
    var n := |bs|;
    BigEndianBound(bs);
    PowerOfEight(n);
    TwosComplementRange(bs);
    LimitStep(n);
    assert 128 * Pow(256, n - 1) <= TWO_TO_THE_63;
  }

  /** ebml_parse_sint. */
  method ParseSint(data: seq<byte>) returns (v: int)
    requires |data| <= 8
    ensures v == TwosComplement(data)
  {
    if data == [] {
      return 0;
    }
    var r: nat := if HasBit(data[0], 0x80) then TWO_TO_THE_64 - 1 else 0;
    assert HasBit(data[0], 0x80) <==> data[0] >= 128;
    assert data[..0] == [];
    for i := 0 to |data|
      invariant Extended(data[..i], data[0] >= 128, r)
    {
      ExtendNext(data[..i], data[0] >= 128, r, data[i]);
      assert data[..i] + [data[i]] == data[..i + 1];
      r := ShiftIn(r, data[i]);
    }
    assert data[..|data|] == data;
    ExtendedIs(data, r);
    v := AsInt64(r);
  }

  /** ebml_parse_uint. */
  method ParseUint(data: seq<byte>) returns (r: nat)
    requires |data| <= 8
    ensures r == BigEndian(data)
  {
    r := 0;
    for i := 0 to |data|
      invariant r == BigEndian(data[..i])
    {
      BigEndianSnoc(data[..i], data[i]);
      assert data[..i] + [data[i]] == data[..i + 1];
      BigEndianBound(data[..i + 1]);
      PowerOfEight(i + 1);
      r := (r * 256) % TWO_TO_THE_64 + data[i];
    }
    assert data[..|data|] == data;
  }

  /** The octets a length-prefixed integer at `pos` consists of, if they are all there. */
  function Payload(data: seq<byte>, pos: nat): (bs: seq<byte>)
    requires pos <= |data|
    requires var d := Decoded(data[pos..]); d.Known? && d.value <= 8 && LengthEnd(data, pos) + d.value <= |data|
  {
    data[LengthEnd(data, pos)..LengthEnd(data, pos) + Decoded(data[pos..]).value]
  }

  /** ebml_read_int: agrees with ParseSint on every complete integer. */
  method ReadInt(data: seq<byte>, pos: nat) returns (v: int, pos': nat)
    requires pos <= |data|
    ensures var d := Decoded(data[pos..]);
      && (!d.Known? || d.value > 8 ==> v == INT_INVALID && pos' == LengthEnd(data, pos))
      && (d.Known? && d.value <= 8 && LengthEnd(data, pos) + d.value <= |data| ==>
            v == TwosComplement(Payload(data, pos)) && pos' == LengthEnd(data, pos) + d.value)
  {
    hide BigEndian, Pow, ShiftIn, TwosComplement, Decoded;
    var len, start := ReadLength(data, pos);
    UnknownIsInvalid(data[pos..]);
    ExtendNone(true);
    ExtendNone(false);
    pos' := start;
    if len == UINT_INVALID || len > 8 {
      return INT_INVALID, pos';
    }
    if len == 0 {
      return 0, pos';
    }
    ghost var complete := start + len <= |data|;
    ghost var bs := if complete then Payload(data, pos) else [];
    var l := CharAt(data, pos');
    var negative := HasBit(l % 256, 0x80);
    var r: nat := if negative then TWO_TO_THE_64 - 1 else 0;
    assert complete ==> bs[..0] == [];
    for i := 0 to len
      invariant r < TWO_TO_THE_64
      invariant complete ==> pos' == start + i && Extended(bs[..i], bs[0] >= 128, r)
    {
      var c := CharAt(data, pos');
      if complete {
        ExtendNext(bs[..i], bs[0] >= 128, r, bs[i]);
        assert bs[..i] + [bs[i]] == bs[..i + 1];
      }
      r := ShiftIn(r, c);
      if c >= 0 {
        pos' := pos' + 1;
      }
    }
    if complete {
      assert bs[..len] == bs;
      ExtendedIs(bs, r);
    }
    v := AsInt64(r);
  }

  // ---------- element ids ----------

  /** The id `data` starts with, marker included, if it is complete. */
  function DecodedId(data: seq<byte>): Vint {
    if data == [] then Truncated
    else
      var w := Width(data[0]);
      if w > 4 then Malformed
      else if |data| < w then Truncated
      else Known(BigEndian(data[..w]), w)
  }

  /** Finds the width of an id from its first octet; 5 if it has more than four. */
  method FindIdWidth(first: byte) returns (len: nat, mask: nat)
    ensures if Width(first) <= 4 then len == Width(first) else len == 5
  {
    len, mask := 1, 0x80;
    BitTest(first, 1);
    while !HasBit(first, mask)
      invariant 1 <= len <= 4 && mask == Mask(len) && (first as int) < 2 * mask
      invariant HasBit(first, mask) <==> first >= mask
      decreases 5 - len
    {
      BitTest(first, len);
      len := len + 1;
      if len > 4 {
        return;
      }
      mask := mask / 2;
      BitTest(first, len);
    }
    WidthIs(first);
  }

  /** ebml_parse_id: for a cut-off id the length still says how long it would have been. */
  method ParseId(data: seq<byte>) returns (id: nat, length: int)
    ensures match DecodedId(data)
      case Known(v, w) => id == v && length == w
      case Malformed => id == ID_INVALID && length == -1
      case _ => if data == [] then id == ID_INVALID && length == -1 else length == Width(data[0]) > |data|
  {
    if data == [] {
      return ID_INVALID, -1;
    }
    var first: nat := data[0];
    var len, mask := FindIdWidth(first);
    if len > 4 {
      return ID_INVALID, -1;
    }
    length := len;
    id := first;
    assert data[..1] == [first];
    BigEndianSnoc([], first);
    var i := 1;
    while i < len && i < |data|
      invariant 1 <= i <= len && i <= |data| && id == BigEndian(data[..i])
    {
      BigEndianSnoc(data[..i], data[i]);
      assert data[..i] + [data[i]] == data[..i + 1];
      BigEndianBound(data[..i + 1]);
      PowGrows(i + 1, 4);
      id := (id * 256) % 0x1_0000_0000 + data[i];
      i := i + 1;
    }
  }

  /** `id << 8 | c` in 32 bits. */
  function ShiftIn32(id: nat, c: int): nat
    requires -256 <= c < 256
  {
    if c < 0 then 0x1_0000_0000 - 256 else (id * 256 + c) % 0x1_0000_0000
  }

  /** ebml_read_id: agrees with ParseId on every complete id; but an id the end of the stream cuts
      off is not reported as invalid. */
  method ReadId(data: seq<byte>, pos: nat) returns (id: nat)
    requires pos <= |data|
    ensures match DecodedId(data[pos..])
      case Known(v, _) => id == v
      case Truncated => id == if pos == |data| then ID_INVALID else 0xFFFF_FF00
      case _ => id == ID_INVALID
  {
    var c := CharAt(data, pos);
    if c < 0 {
      return ID_INVALID;
    }
    var j, mask := FindIdWidth(c);
    if j > 4 {
      return ID_INVALID;
    }
    id := c;
    ghost var d := data[pos..];
    assert d[..1] == [d[0]];
    BigEndianSnoc([], d[0]);
    for i := 1 to j
      invariant if i <= |d| then id == BigEndian(d[..i]) else id == 0xFFFF_FF00
    {
      if i < |d| {
        BigEndianSnoc(d[..i], d[i]);
        assert d[..i] + [d[i]] == d[..i + 1];
        BigEndianBound(d[..i + 1]);
        PowGrows(i + 1, 4);
      }
      id := ShiftIn32(id, CharAt(data, pos + i));
    }
  }
}
