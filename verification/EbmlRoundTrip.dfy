/** Writing EBML elements, and that the two-pass parser reads back what was written: headers in any
    widths, children in any order, and values of every type. */
module EbmlRoundTrip {
  import opened Octets
  import opened EbmlVarint
  import opened EbmlElement

  /** A child element as it is written: the data bits of its id and the width of that, the width of
      its length, and its content. */
  datatype Written = Written(idBits: nat, idWidth: nat, lenWidth: nat, content: seq<byte>)

  predicate Writable(c: Written) {
    && 1 <= c.idWidth <= 4 && c.idBits < Limit(c.idWidth)
    && 1 <= c.lenWidth <= 8 && |c.content| < Limit(c.lenWidth) - 1
  }

  /** An id includes the bit that marks its width. */
  function IdOf(c: Written): nat { Limit(c.idWidth) + c.idBits }

  function Write(c: Written): seq<byte> {
    Encoded(c.idBits, c.idWidth) + Encoded(|c.content|, c.lenWidth) + c.content
  }

  function WriteAll(cs: seq<Written>): seq<byte> {
    if cs == [] then [] else Write(cs[0]) + WriteAll(cs[1..])
  }

  predicate AllWritable(cs: seq<Written>) {
    forall i :: 0 <= i < |cs| ==> Writable(cs[i])
  }

  /** Ids are read back, marker included. */
  lemma IdReadsBack(bits: nat, w: nat, rest: seq<byte>)
    requires 1 <= w <= 4 && bits < Limit(w)
    ensures DecodedId(Encoded(bits, w) + rest) == Known(Limit(w) + bits, w)
  {
    EncodedStarts(bits, w);
    var data := Encoded(bits, w) + rest;
    assert data[..w] == Encoded(bits, w) && data[0] == Encoded(bits, w)[0];
  }

  /** And whatever is read as an id is the written form of it. */
  lemma ReadIdWasWritten(data: seq<byte>)
    ensures var d := DecodedId(data);
      d.Known? ==> 1 <= d.width <= 4 && d.width <= |data| && Limit(d.width) <= d.value < 2 * Limit(d.width)
                   && data[..d.width] == Encoded(d.value - Limit(d.width), d.width)
  {
    hide BigEndian, Limit, Encoded, Width;
    if DecodedId(data).Known? {
      WholeIsEncoding(data[..Width(data[0])]);
    }
  }

  lemma {:induction false} HeadReadsBack(before: seq<byte>, c: Written, rest: seq<byte>)
    requires Writable(c)
    ensures var data, p := before + Write(c) + rest, |before|;
      && p < |data|
      && HeadAt(data, p) == Head(IdOf(c), p + c.idWidth + c.lenWidth, |c.content|)
  {
    hide Decoded, DecodedId, Encoded, Limit;
    var data, p := before + Write(c) + rest, |before|;
    var id, len := Encoded(c.idBits, c.idWidth), Encoded(|c.content|, c.lenWidth);
    assert data[p..] == id + (len + (c.content + rest));
    IdReadsBack(c.idBits, c.idWidth, len + (c.content + rest));
    assert data[p + c.idWidth..] == len + (c.content + rest);
    DecodeEncoded(|c.content|, c.lenWidth, c.content + rest);
  }

  /** The children found are the ones written, in order, with their contents. */
  predicate Found(data: seq<byte>, fields: seq<Field>, found: seq<Child>, cs: seq<Written>) {
    && |found| == |cs| && Within(data, found)
    && forall i :: 0 <= i < |cs| ==>
         && found[i].field == FieldOf(fields, IdOf(cs[i]), 0)
         && data[found[i].body..found[i].body + found[i].len] == cs[i].content
  }

  lemma FoundFirst(data: seq<byte>, fields: seq<Field>, c: Child, found: seq<Child>, cs: seq<Written>)
    requires cs != [] && Found(data, fields, found, cs[1..])
    requires c.body + c.len <= |data| && data[c.body..c.body + c.len] == cs[0].content
    requires c.field == FieldOf(fields, IdOf(cs[0]), 0)
    ensures Found(data, fields, [c] + found, cs)
  {
    hide FieldOf;
    forall i | 0 <= i < |cs|
      ensures ([c] + found)[i].field == FieldOf(fields, IdOf(cs[i]), 0)
      ensures ([c] + found)[i].body + ([c] + found)[i].len <= |data|
      ensures data[([c] + found)[i].body..([c] + found)[i].body + ([c] + found)[i].len] == cs[i].content
    {
      if i > 0 {
        assert cs[i] == cs[1..][i - 1];
      }
    }
  }

  lemma {:induction false} ChildrenReadBack(before: seq<byte>, cs: seq<Written>, fields: seq<Field>)
    requires AllWritable(cs)
    ensures var data := before + WriteAll(cs);
      && Found(data, fields, Children(data, fields, |before|), cs)
      && ChildrenEnd(data, fields, |before|) == |data|
    decreases |cs|
  {
    hide HeadAt, Writable, FieldOf, Write, Encoded, Found;
    var data, p := before + WriteAll(cs), |before|;
    if cs == [] {
      assert data == before;
      NoneFound(data, fields);
    } else {
      var c, rest := cs[0], WriteAll(cs[1..]);
      HeadReadsBack(before, c, rest);
      assert data == before + Write(c) + rest;
      WriteIs(before, c, rest);
      ChildrenReadBack(before + Write(c), cs[1..], fields);
      var body := p + c.idWidth + c.lenWidth;
      assert !Overlong(data, fields, HeadAt(data, p));
      FoundFirst(data, fields, Child(FieldOf(fields, IdOf(c), 0), body, |c.content|),
                 Children(data, fields, body + |c.content|), cs);
    }
  }

  lemma NoneFound(data: seq<byte>, fields: seq<Field>)
    ensures Found(data, fields, [], [])
  {
  }

  lemma WriteIs(before: seq<byte>, c: Written, rest: seq<byte>)
    ensures |Write(c)| == c.idWidth + c.lenWidth + |c.content|
    ensures var data, body := before + Write(c) + rest, |before| + c.idWidth + c.lenWidth;
      data[body..body + |c.content|] == c.content
  {
  }

  /** The values of field `i` among what was written: those that its type accepts, in order. */
  function ValuesOf(d: Desc, cs: seq<Written>, i: nat): seq<Value>
    requires i < |d.fields|
  {
    if cs == [] then []
    else
      var c, vs := cs[|cs| - 1], ValuesOf(d, cs[..|cs| - 1], i);
      if FieldOf(d.fields, IdOf(c), 0) != i then vs
      else
        match ValueOf(d.fields[i].desc, c.content)
        case Bad => vs
        case Good(v) => vs + [v]
  }

  lemma {:induction false} SuccessesAreValues(data: seq<byte>, d: Desc, found: seq<Child>, cs: seq<Written>, i: nat)
    requires Found(data, d.fields, found, cs) && i < |d.fields|
    ensures Successes(data, d, found, i) == ValuesOf(d, cs, i)
    decreases |cs|
  {
    hide FieldOf, ValueOf;
    if cs != [] {
      assert Found(data, d.fields, found[..|cs| - 1], cs[..|cs| - 1]);
      SuccessesAreValues(data, d, found[..|cs| - 1], cs[..|cs| - 1], i);
    }
  }

  /** What is written is parsed: every list has the values written for it, in order, up to what may be
      allocated, and every other field has the first value written for it. Elements the schema does not
      know are skipped. */
  lemma ElementReadsBack(d: Desc, cs: seq<Written>, i: nat)
    requires AllWritable(cs) && i < |d.fields|
    ensures var vs, e, f := ValuesOf(d, cs, i), Parsed(WriteAll(cs), d), d.fields[i];
      && (f.multiple && !f.desc.kind.SubElements? ==> e.values[i] == vs)
      && (f.multiple && f.desc.kind.SubElements? && f.desc.size > 0 ==>
            e.values[i] == if |vs| <= MAX_ALLOCATION / f.desc.size then vs else vs[..MAX_ALLOCATION / f.desc.size])
      && (!f.multiple ==> e.values[i] == if vs == [] then [] else [vs[0]])
  {
    hide HeadAt, FieldOf, ValueOf, Found;
    var data := WriteAll(cs);
    assert [] + data == data;
    ChildrenReadBack([], cs, d.fields);
    var found := Children(data, d.fields, 0);
    FoundWithin(data, d.fields, found, cs);
    SuccessesAreValues(data, d, found, cs, i);
    CollectedIsPrefix(data, d, found, i);
    var vs := ValuesOf(d, cs, i);
    assert vs[..|vs|] == vs;
  }

  lemma FoundWithin(data: seq<byte>, fields: seq<Field>, found: seq<Child>, cs: seq<Written>)
    requires Found(data, fields, found, cs)
    ensures Within(data, found)
  {
  }

  /** An element that the input cuts off: a structure and an element the schema does not know are taken
      as far as they go; at any other the element ends. */
  lemma {:induction false} CutOffReads(before: seq<byte>, bits: nat, idWidth: nat, len: nat, lenWidth: nat,
                                       part: seq<byte>, fields: seq<Field>)
    requires 1 <= idWidth <= 4 && bits < Limit(idWidth) && 1 <= lenWidth <= 8 && |part| < len < Limit(lenWidth) - 1
    ensures var data := before + (Encoded(bits, idWidth) + Encoded(len, lenWidth) + part);
      var f := FieldOf(fields, Limit(idWidth) + bits, 0);
      var body := |before| + idWidth + lenWidth;
      if f >= 0 && !fields[f].desc.kind.SubElements?
      then Children(data, fields, |before|) == [] && ChildrenEnd(data, fields, |before|) == |before|
      else Children(data, fields, |before|) == [Child(f, body, |part|)]
           && ChildrenEnd(data, fields, |before|) == |data| && data[body..] == part
  {
    hide Decoded, DecodedId, Encoded, Limit, FieldOf, HeadAt;
    var id, n := Encoded(bits, idWidth), Encoded(len, lenWidth);
    var data, p := before + (id + n + part), |before|;
    HeadOfCutOff(before, bits, idWidth, len, lenWidth, part);
    ChildrenStep(data, fields, p);
    ChildrenStop(data, fields);
  }

  lemma {:induction false} HeadOfCutOff(before: seq<byte>, bits: nat, idWidth: nat, len: nat, lenWidth: nat,
                                        part: seq<byte>)
    requires 1 <= idWidth <= 4 && bits < Limit(idWidth) && 1 <= lenWidth <= 8 && len < Limit(lenWidth) - 1
    ensures var data, p := before + (Encoded(bits, idWidth) + Encoded(len, lenWidth) + part), |before|;
      p < |data| && HeadAt(data, p) == Head(Limit(idWidth) + bits, p + idWidth + lenWidth, len)
  {
    hide Decoded, DecodedId, Encoded, Limit;
    var id, n := Encoded(bits, idWidth), Encoded(len, lenWidth);
    var data, p := before + (id + n + part), |before|;
    assert data[p..] == id + (n + part);
    IdReadsBack(bits, idWidth, n + part);
    assert data[p + idWidth..] == n + part;
    DecodeEncoded(len, lenWidth, part);
  }

  // ---------- values ----------

  /** An unsigned number in as many octets as it needs, or more, is read back. */
  lemma UIntReadsBack(d: Desc, v: nat, n: nat)
    requires d.kind.UInt? && 1 <= n <= 8 && v < Pow(256, n)
    ensures ValueOf(d, Bytes(v, n)) == Good(UIntValue(v))
  {
    BytesInverse(v, n);
  }

  /** So is a signed one, in two's complement. */
  lemma SIntReadsBack(d: Desc, v: int, n: nat)
    requires d.kind.SInt? && 1 <= n <= 8 && -(128 * Pow(256, n - 1)) <= v < 128 * Pow(256, n - 1)
    ensures 2 * (128 * Pow(256, n - 1)) == Pow(256, n)
    ensures ValueOf(d, Bytes(if v < 0 then v + Pow(256, n) else v, n)) == Good(SIntValue(v))
  {
    hide Bytes, Pow, BigEndian;
    LimitStep(n);
    var half := 128 * Pow(256, n - 1);
    assert Pow(256, n) == 2 * half;
    var u: nat := if v < 0 then v + Pow(256, n) else v;
    BytesInverse(u, n);
    var bs := Bytes(u, n);
    TwosComplementRange(bs);
    TopOctet(bs, Pow(256, n - 1));
  }

  lemma TopOctet(bs: seq<byte>, p: nat)
    requires bs != [] && p == Pow(256, |bs| - 1)
    ensures bs[0] >= 128 <==> BigEndian(bs) >= 128 * p
  {
    hide Pow, BigEndian;
    TopByte(bs);
    var b: nat := bs[0];
    if b >= 128 {
      Times(128, b, p);
    } else {
      Times(b + 1, 128, p);
    }
  }

  /** A string ends at the first zero octet, or with its content. */
  lemma {:induction false} StringIs(s: seq<byte>)
    ensures var t := UpToNul(s);
      && t <= s && (forall k :: 0 <= k < |t| ==> t[k] != 0) && (|t| < |s| ==> s[|t|] == 0)
  {
    if s != [] && s[0] != 0 {
      StringIs(s[1..]);
    }
  }

  lemma StrReadsBack(d: Desc, s: seq<byte>, padding: seq<byte>)
    requires d.kind.Str? && |s + padding| <= MAX_STRING && (forall k :: 0 <= k < |s| ==> s[k] != 0)
    requires padding != [] ==> padding[0] == 0
    ensures ValueOf(d, s + padding) == Good(StrValue(s))
  {
    var t := UpToNul(s + padding);
    StringIs(s + padding);
    assert t == (s + padding)[..|s|] == s;
  }

  lemma IdValueReadsBack(d: Desc, bits: nat, w: nat)
    requires d.kind.EbmlId? && 1 <= w <= 4 && bits < Limit(w)
    ensures ValueOf(d, Encoded(bits, w)) == Good(IdValue(Limit(w) + bits))
  {
    hide Limit, Encoded;
    IdReadsBack(bits, w, []);
    assert Encoded(bits, w) + [] == Encoded(bits, w);
  }

  /** A float's bits are read back in its two widths; no octets are zero. */
  lemma FloatReadsBack(d: Desc, bits: nat, n: nat)
    requires d.kind.Float? && (n == 0 || n == 4 || n == 8) && bits < Pow(256, n)
    ensures ValueOf(d, Bytes(bits, n)) == Good(FloatValue(bits, n))
  {
    BytesInverse(bits, n);
  }

  /** Binary data is its content, up to 2 GiB. */
  lemma BinaryReadsBack(d: Desc, content: seq<byte>)
    requires d.kind.Binary?
    ensures ValueOf(d, content) == Good(if |content| <= 0x8000_0000 then BinaryValue(content) else NoValue)
  {
  }

  /** A content of a length that its type cannot have is no value, whatever it says. */
  lemma BadLengths(d: Desc, content: seq<byte>)
    requires !d.kind.SubElements? && !d.kind.EbmlId?
    ensures ValueOf(d, content).Bad? <==>
      || (d.kind.UInt? && (content == [] || |content| > 8))
      || (d.kind.SInt? && |content| > 8)
      || (d.kind.Float? && |content| !in {0, 4, 8})
  {
  }
}
