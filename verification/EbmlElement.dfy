/** The two-pass parser of EBML master elements (ebml_parse_element): one pass counts how often
    each field of the schema occurs, the second one fills arrays of the counted sizes. */
module EbmlElement {
  import opened Octets
  import opened EbmlVarint

  const MAX_ALLOCATION: nat := 1_000_000_000
  const COUNT_LIMIT: nat := 0x7000_0000
  const MAX_INT: nat := 0x7FFF_FFFF
  const MAX_STRING: nat := 1024 * 1024
  const MAX_BINARY: nat := 0x8000_0000
  const MAX_LEVEL: nat := 8

  datatype Kind = SubElements | UInt | SInt | Float | Str | Binary | EbmlId

  /** A schema: what may occur in an element, `size` being that of the target structure. */
  datatype Desc = Desc(kind: Kind, size: nat, fields: seq<Field>)
  datatype Field = Field(id: nat, multiple: bool, desc: Desc)

  /** A parsed field value; floats are kept as their bits. `NoValue` is a string that is counted
      but too long to be read. */
  datatype Value =
    | NoValue
    | UIntValue(u: nat)
    | SIntValue(i: int)
    | FloatValue(bits: nat, octets: nat)
    | StrValue(s: seq<byte>)
    | BinaryValue(b: seq<byte>)
    | IdValue(id: nat)
    | ElementValue(e: Element)

  /** The values of each field, as many as its count says. */
  datatype Element = Element(values: seq<seq<Value>>)

  /** Structures have a size, and the schema nests at most `levels` deep. */
  predicate WellFormed(d: Desc, levels: nat)
    decreases d
  {
    d.kind.SubElements? ==>
      && levels > 0 && d.size > 0
      && forall i :: 0 <= i < |d.fields| ==> WellFormed(d.fields[i].desc, levels - 1)
  }

  // ---------- headers ----------

  /** An id and a length, with the position of the content behind them. */
  datatype Head = NoHead | Head(id: nat, body: nat, len: nat)

  function HeadAt(data: seq<byte>, p: nat): (h: Head)
    requires p < |data|
    ensures h.Head? ==> p + 2 <= h.body <= |data|
  {
    var id := DecodedId(data[p..]);
    if !id.Known? then NoHead
    else
      var rest := data[p + id.width..];
      var len := Decoded(rest);
      if !len.Known? then NoHead else Head(id.value, p + id.width + len.width, len.value)
  }

  function FieldOf(fields: seq<Field>, id: nat, i: nat): (f: int)
    requires i <= |fields|
    ensures -1 <= f < |fields|
    ensures f >= 0 ==> i <= f && fields[f].id == id && forall j :: i <= j < f ==> fields[j].id != id
    ensures f < 0 ==> forall j :: i <= j < |fields| ==> fields[j].id != id
    decreases |fields| - i
  {
    if i == |fields| then -1 else if fields[i].id == id then i else FieldOf(fields, id, i + 1)
  }

  method FindField(fields: seq<Field>, id: nat) returns (f: int)
    ensures f == FieldOf(fields, id, 0)
  {
    f := -1;
    for i := 0 to |fields|
      invariant FieldOf(fields, id, 0) == FieldOf(fields, id, i)
    {
      if fields[i].id == id {
        return i;
      }
    }
  }

  /** A child element: which field it belongs to (or -1) and where its content lies. */
  datatype Child = Child(field: int, body: nat, len: nat)

  /** The content goes past the end, and is not a master element that can be parsed partially. */
  predicate Overlong(data: seq<byte>, fields: seq<Field>, h: Head)
    requires h.Head? && h.body <= |data|
  {
    h.len > |data| - h.body
    && var f := FieldOf(fields, h.id, 0); f >= 0 && !fields[f].desc.kind.SubElements?
  }

  /** The children of an element: headers one after the other until one is broken or its content
      does not fit. */
  function Children(data: seq<byte>, fields: seq<Field>, p: nat): (cs: seq<Child>)
    requires p <= |data|
    decreases |data| - p
  {
    if p == |data| then []
    else
      var h := HeadAt(data, p);
      if h.NoHead? || Overlong(data, fields, h) then []
      else
        var n := if h.len > |data| - h.body then |data| - h.body else h.len;
        [Child(FieldOf(fields, h.id, 0), h.body, n)] + Children(data, fields, h.body + n)
  }

  /** Where the last usable child ends. */
  function ChildrenEnd(data: seq<byte>, fields: seq<Field>, p: nat): (e: nat)
    requires p <= |data|
    ensures p <= e <= |data|
    decreases |data| - p
  {
    if p == |data| then p
    else
      var h := HeadAt(data, p);
      if h.NoHead? || Overlong(data, fields, h) then p
      else ChildrenEnd(data, fields, h.body + if h.len > |data| - h.body then |data| - h.body else h.len)
  }

  lemma IdOfPrefix(d: seq<byte>, e: seq<byte>)
    requires e <= d && DecodedId(d).Known? && DecodedId(d).width <= |e|
    ensures DecodedId(e) == DecodedId(d)
  {
    assert e[..DecodedId(d).width] == d[..DecodedId(d).width];
  }

  lemma LengthOfPrefix(d: seq<byte>, e: seq<byte>)
    requires e <= d && Decoded(d).Known? && Decoded(d).width <= |e|
    ensures Decoded(e) == Decoded(d)
  {
    assert e[..Decoded(d).width] == d[..Decoded(d).width];
  }

  lemma HeadOfPrefix(data: seq<byte>, e: nat, p: nat)
    requires p < e <= |data| && HeadAt(data, p).Head? && HeadAt(data, p).body <= e
    ensures HeadAt(data[..e], p) == HeadAt(data, p)
  {
    hide DecodedId, Decoded;
    var id := DecodedId(data[p..]);
    assert data[..e][p..] <= data[p..];
    IdOfPrefix(data[p..], data[..e][p..]);
    assert data[..e][p + id.width..] <= data[p + id.width..];
    LengthOfPrefix(data[p + id.width..], data[..e][p + id.width..]);
  }

  /** Reading only up to where the count pass stopped finds exactly the children it completed, and
      meets no broken header. */
  lemma {:induction false} SameChildren(data: seq<byte>, fields: seq<Field>, p: nat)
    requires p <= |data|
    ensures var e := ChildrenEnd(data, fields, p);
      && Children(data[..e], fields, p) == Children(data, fields, p)
      && ChildrenEnd(data[..e], fields, p) == e
    decreases |data| - p
  {
    hide HeadAt;
    var e := ChildrenEnd(data, fields, p);
    if p < |data| {
      var h := HeadAt(data, p);
      if h.Head? && !Overlong(data, fields, h) {
        var n := if h.len > |data| - h.body then |data| - h.body else h.len;
        SameChildren(data, fields, h.body + n);
        HeadOfPrefix(data, e, p);
        if h.len > |data| - h.body {
          assert e == |data| && data[..e] == data;
        }
      }
    }
  }

  function CountOf(cs: seq<Child>, f: int): (n: nat)
    ensures n <= |cs|
  {
    if cs == [] then 0 else CountOf(cs[..|cs| - 1], f) + if cs[|cs| - 1].field == f then 1 else 0
  }

  lemma CountSnoc(cs: seq<Child>, c: Child, f: int)
    ensures CountOf(cs + [c], f) == CountOf(cs, f) + if c.field == f then 1 else 0
  {
    assert (cs + [c])[..|cs|] == cs;
  }

  // ---------- values ----------

  datatype Read = Bad | Good(value: Value)

  function UpToNul(s: seq<byte>): seq<byte> {
    if s == [] || s[0] == 0 then [] else [s[0]] + UpToNul(s[1..])
  }

  /** What the content of a field says; `Bad` if its length does not suit its type. */
  function ValueOf(d: Desc, content: seq<byte>): Read
    decreases d, 3, 0
  {
    match d.kind
    case SubElements => Good(ElementValue(Parsed(content, d)))
    case UInt => if 1 <= |content| <= 8 then Good(UIntValue(BigEndian(content))) else Bad
    case SInt => if |content| <= 8 then Good(SIntValue(TwosComplement(content))) else Bad
    case Float =>
      if |content| == 0 || |content| == 4 || |content| == 8 then Good(FloatValue(BigEndian(content), |content|))
      else Bad
    case Str => Good(if |content| > MAX_STRING then NoValue else StrValue(UpToNul(content)))
    case Binary => Good(if |content| > MAX_BINARY then NoValue else BinaryValue(content))
    case EbmlId =>
      var id := DecodedId(content);
      if id.Known? && id.width == |content| then Good(IdValue(id.value)) else Bad
  }

  /** How many values of a field there can be: one unless it is a list; a list of structures is
      also limited by what may be allocated. */
  predicate HasRoom(f: Field, count: nat) {
    if !f.multiple then count == 0
    else f.desc.kind.SubElements? && f.desc.size > 0 ==> count < MAX_ALLOCATION / f.desc.size
  }

  /** The values of field `i` among the children. */
  function Collected(data: seq<byte>, d: Desc, cs: seq<Child>, i: nat): (vs: seq<Value>)
    requires i < |d.fields| && Within(data, cs)
    ensures |vs| <= CountOf(cs, i)
    decreases d, 1, |cs|
  {
    if cs == [] then []
    else
      var c, vs := cs[|cs| - 1], Collected(data, d, cs[..|cs| - 1], i);
      if c.field != i || !HasRoom(d.fields[i], |vs|) then vs
      else
        match ValueOf(d.fields[i].desc, data[c.body..c.body + c.len])
        case Bad => vs
        case Good(v) => vs + [v]
  }

  predicate Within(data: seq<byte>, cs: seq<Child>) {
    forall k :: 0 <= k < |cs| ==> cs[k].body + cs[k].len <= |data|
  }

  lemma {:induction false} ChildrenWithin(data: seq<byte>, fields: seq<Field>, p: nat)
    requires p <= |data|
    ensures Within(data, Children(data, fields, p))
    ensures forall k :: 0 <= k < |Children(data, fields, p)| ==> -1 <= Children(data, fields, p)[k].field < |fields|
    decreases |data| - p
  {
    hide HeadAt;
    if p < |data| {
      var h := HeadAt(data, p);
      if h.Head? && !Overlong(data, fields, h) {
        ChildrenWithin(data, fields, h.body + if h.len > |data| - h.body then |data| - h.body else h.len);
      }
    }
  }

  /** What parsing an element yields. */
  function Parsed(data: seq<byte>, d: Desc): (e: Element)
    ensures |e.values| == |d.fields|
    decreases d, 2, 0
  {
    ChildrenWithin(data, d.fields, 0);
    var cs := Children(data, d.fields, 0);
    Element(seq(|d.fields|, i requires 0 <= i < |d.fields| => Collected(data, d, cs, i)))
  }

  // ---------- the count pass ----------

  /** What each field's counter may say after the children `cs`: one more than they have, at most,
      if the pass stopped at a child that does not fit. */
  predicate Counted(num: seq<nat>, cs: seq<Child>, fields: seq<Field>, extra: nat) {
    |num| == |fields| && forall i :: 0 <= i < |num| ==> CountOf(cs, i) <= num[i] <= CountOf(cs, i) + extra
  }

  lemma CountChild(num: seq<nat>, cs: seq<Child>, fields: seq<Field>, c: Child)
    requires Counted(num, cs, fields, 0) && -1 <= c.field < |fields|
    ensures var num' := if c.field >= 0 then num[c.field := num[c.field] + 1] else num;
      Counted(num', cs + [c], fields, 0) && Counted(num', cs, fields, 1)
  {
    var num' := if c.field >= 0 then num[c.field := num[c.field] + 1] else num;
    forall i | 0 <= i < |fields| ensures CountOf(cs + [c], i) == num'[i] {
      CountSnoc(cs, c, i);
    }
  }

  /** Every child takes at least two bytes, so no counter comes near its limit. */
  lemma CountsAreSmall(num: seq<nat>, cs: seq<Child>, fields: seq<Field>, f: nat, p: nat)
    requires Counted(num, cs, fields, 0) && f < |fields| && 2 * |cs| <= p <= MAX_INT
    ensures num[f] + 1 < COUNT_LIMIT
  {
  }

  /** One header as the passes read it; `ok` unless it is broken or does not fit. */
  method ReadHead(data: seq<byte>, p: nat) returns (ok: bool, id: nat, body: nat, len: nat)
    requires p < |data|
    ensures ok == HeadAt(data, p).Head?
    ensures ok ==> Head(id, body, len) == HeadAt(data, p)
  {
    hide DecodedId, Decoded;
    ok, body, len := false, p, 0;
    var width;
    id, width := ParseId(data[p..]);
    if width > |data| - p || width < 0 {
      return;
    }
    body := p + width;
    len, width := ParseLength(data[body..]);
    if width > |data| - body || width < 0 {
      return;
    }
    assert data[p + DecodedId(data[p..]).width..] == data[body..];
    body := body + width;
    ok := true;
  }

  /** Counts each field's occurrences; `end` is where parsing has to stop. */
  method CountFields(data: seq<byte>, fields: seq<Field>) returns (num: seq<nat>, end: nat)
    requires |data| <= MAX_INT
    ensures end == ChildrenEnd(data, fields, 0)
    ensures Counted(num, Children(data, fields, 0), fields, 1)
  {
    hide HeadAt, CountOf, Counted, Children, ChildrenEnd, Overlong;
    var p := 0;
    end := |data|;
    num := seq(|fields|, _ => 0);
    ghost var cs: seq<Child> := [];
    CountNone(fields);
    while p < end
      invariant p <= end == |data| && 2 * |cs| <= p
      invariant Counted(num, cs, fields, 0)
      invariant Children(data, fields, 0) == cs + Children(data, fields, p)
      invariant ChildrenEnd(data, fields, 0) == ChildrenEnd(data, fields, p)
      decreases |data| - p
    {
      var startp := p;
      ChildrenStep(data, fields, p);
      CountedLoosely(num, cs, fields);
      var ok, id, body, len := ReadHead(data, p);
      if !ok {
        return num, startp;
      }
      var f := FindField(fields, id);
      ghost var c := Child(f, body, if len > |data| - body then |data| - body else len);
      CountChild(num, cs, fields, c);
      if f >= 0 {
        CountsAreSmall(num, cs, fields, f, p);
        num := num[f := num[f] + 1];
        assert num[f] < COUNT_LIMIT;
      }
      if len > |data| - body {
        if f >= 0 && !fields[f].desc.kind.SubElements? {
          return num, startp;
        }
        len := |data| - body;
      }
      assert cs + [c] + Children(data, fields, body + len) == cs + Children(data, fields, p);
      cs := cs + [c];
      p := body + len;
    }
    ChildrenStop(data, fields);
    CountedLoosely(num, cs, fields);
  }

  /** One step of the specification, for the header found at `p`. */
  lemma ChildrenStep(data: seq<byte>, fields: seq<Field>, p: nat)
    requires p < |data|
    ensures var h := HeadAt(data, p);
      if h.NoHead? then Children(data, fields, p) == [] && ChildrenEnd(data, fields, p) == p
      else
        var f := FieldOf(fields, h.id, 0);
        var n := if h.len > |data| - h.body then |data| - h.body else h.len;
        if h.len > |data| - h.body && f >= 0 && !fields[f].desc.kind.SubElements? then
          Overlong(data, fields, h) && Children(data, fields, p) == [] && ChildrenEnd(data, fields, p) == p
        else
          && !Overlong(data, fields, h)
          && Children(data, fields, p) == [Child(f, h.body, n)] + Children(data, fields, h.body + n)
          && ChildrenEnd(data, fields, p) == ChildrenEnd(data, fields, h.body + n)
  {
    hide HeadAt, FieldOf;
  }

  lemma ChildrenStop(data: seq<byte>, fields: seq<Field>)
    ensures Children(data, fields, |data|) == [] && ChildrenEnd(data, fields, |data|) == |data|
  {
  }

  lemma CountNone(fields: seq<Field>)
    ensures Counted(seq(|fields|, _ => 0), [], fields, 0)
  {
  }

  lemma CountedLoosely(num: seq<nat>, cs: seq<Child>, fields: seq<Field>)
    requires Counted(num, cs, fields, 0)
    ensures Counted(num, cs, fields, 1) && cs + [] == cs && |num| == |fields|
  {
  }

  /** How many values are allocated for each field. */
  predicate Allocated(alloc: seq<nat>, num: seq<nat>, fields: seq<Field>) {
    && |alloc| == |num| == |fields|
    && forall i :: 0 <= i < |fields| ==>
         alloc[i] == var f := fields[i];
           if f.multiple && f.desc.kind.SubElements? && f.desc.size > 0 && num[i] > MAX_ALLOCATION / f.desc.size
           then MAX_ALLOCATION / f.desc.size else num[i]
  }

  method Allocate(num: seq<nat>, fields: seq<Field>) returns (alloc: seq<nat>)
    requires |num| == |fields|
    requires forall i :: 0 <= i < |fields| && fields[i].desc.kind.SubElements? ==> fields[i].desc.size > 0
    ensures Allocated(alloc, num, fields)
  {
    alloc := num;
    for i := 0 to |fields|
      invariant |alloc| == |num|
      invariant Allocated(alloc[..i], num[..i], fields[..i])
      invariant forall k :: i <= k < |num| ==> alloc[k] == num[k]
    {
      if num[i] > 0 && fields[i].multiple && fields[i].desc.kind.SubElements? {
        var max := MAX_ALLOCATION / fields[i].desc.size;
        if num[i] > max {
          alloc := alloc[i := max];
        }
      }
    }
    assert alloc[..|fields|] == alloc && num[..|fields|] == num && fields[..|fields|] == fields;
  }

  // ---------- the fill pass ----------

  lemma {:induction false} CountConcat(a: seq<Child>, b: seq<Child>, f: int)
    ensures CountOf(a + b, f) == CountOf(a, f) + CountOf(b, f)
    decreases |b|
  {
    if b == [] {
      assert a + b == a;
    } else {
      CountConcat(a, b[..|b| - 1], f);
      assert (a + b)[..|a + b| - 1] == a + b[..|b| - 1];
    }
  }

  /** The next child of a field always finds room in what the count pass asked for; only the limit
      on the allocation can leave it without. */
  lemma RoomForNext(fields: seq<Field>, num: seq<nat>, alloc: seq<nat>, cs: seq<Child>, visited: seq<Child>,
                    c: Child, rest: seq<Child>, count: nat)
    requires Counted(num, cs, fields, 1) && Allocated(alloc, num, fields)
    requires cs == visited + [c] + rest && 0 <= c.field < |fields| && count <= CountOf(visited, c.field)
    ensures count < num[c.field]
    ensures var f := fields[c.field];
      count >= alloc[c.field] <==>
        f.multiple && f.desc.kind.SubElements? && f.desc.size > 0 && count >= MAX_ALLOCATION / f.desc.size
  {
    CountConcat(visited + [c], rest, c.field);
    CountSnoc(visited, c, c.field);
  }

  /** An id fills a content exactly if it does so when read on to the end of the parent. */
  lemma IdFills(d: seq<byte>, n: nat)
    requires n <= |d|
    ensures DecodedId(d).Known? && DecodedId(d).width == n
      <==> DecodedId(d[..n]).Known? && DecodedId(d[..n]).width == n
    ensures DecodedId(d).Known? && DecodedId(d).width == n ==> DecodedId(d) == DecodedId(d[..n])
  {
    if n > 0 {
      assert d[..n][0] == d[0];
      if Width(d[0]) == n {
        assert d[..n][..n] == d[..n];
      }
    }
  }

  method CopyString(s: seq<byte>) returns (r: seq<byte>)
    ensures r == UpToNul(s)
  {
    r := [];
    var i := 0;
    assert s[0..] == s;
    while i < |s| && s[i] != 0
      invariant 0 <= i <= |s| && UpToNul(s) == r + UpToNul(s[i..])
    {
      assert s[i..][1..] == s[i + 1..];
      r := r + [s[i]];
      i := i + 1;
    }
  }

  /** The content at `p`, `length` bytes long. */
  method ParseValue(data: seq<byte>, p: nat, length: nat, d: Desc, level: nat) returns (r: Read)
    requires p + length <= |data| <= MAX_INT && level < MAX_LEVEL && WellFormed(d, MAX_LEVEL - level - 1)
    ensures r == ValueOf(d, data[p..p + length])
    decreases d, 3
  {
    hide BigEndian, TwosComplement, DecodedId, UpToNul, Parsed;
    var content := data[p..p + length];
    match d.kind {
      case SubElements =>
        var e := ParseElement(content, d, level + 1);
        return Good(ElementValue(e));
      case UInt =>
        if length < 1 || length > 8 {
          return Bad;
        }
        var u := ParseUint(content);
        return Good(UIntValue(u));
      case SInt =>
        if length > 8 {
          return Bad;
        }
        var i := ParseSint(content);
        return Good(SIntValue(i));
      case Float =>
        if length != 0 && length != 4 && length != 8 {
          return Bad;
        }
        var bits := ParseUint(content);
        return Good(FloatValue(bits, length));
      case Str =>
        if length > MAX_STRING {
          return Good(NoValue);
        }
        var s := CopyString(content);
        return Good(StrValue(s));
      case Binary =>
        return Good(if length > MAX_BINARY then NoValue else BinaryValue(content));
      case EbmlId =>
        IdFills(data[p..], length);
        assert data[p..][..length] == content;
        var id, len := ParseId(data[p..]);
        if len != length {
          return Bad;
        }
        return Good(IdValue(id));
    }
  }

  /** One more child put where it belongs. */
  lemma CollectNext(data: seq<byte>, d: Desc, visited: seq<Child>, c: Child, i: nat)
    requires i < |d.fields| && Within(data, visited + [c]) && c.body + c.len <= |data|
    ensures Within(data, visited)
    ensures var vs := Collected(data, d, visited, i);
      Collected(data, d, visited + [c], i) ==
        if c.field != i || !HasRoom(d.fields[i], |vs|) then vs
        else match ValueOf(d.fields[i].desc, data[c.body..c.body + c.len])
             case Bad => vs
             case Good(v) => vs + [v]
  {
    assert (visited + [c])[..|visited|] == visited;
    assert forall k :: 0 <= k < |visited| ==> visited[k] == (visited + [c])[k];
  }

  ghost predicate Filled(data: seq<byte>, d: Desc, visited: seq<Child>, values: seq<seq<Value>>) {
    && |values| == |d.fields| && Within(data, visited)
    && forall i :: 0 <= i < |values| ==> values[i] == Collected(data, d, visited, i)
  }

  lemma FillNext(data: seq<byte>, d: Desc, visited: seq<Child>, values: seq<seq<Value>>, c: Child,
                 values': seq<seq<Value>>)
    requires Filled(data, d, visited, values) && c.body + c.len <= |data|
    requires c.field < 0 ==> values' == values
    requires 0 <= c.field < |d.fields| ==>
      values' == var vs := values[c.field];
        if !HasRoom(d.fields[c.field], |vs|) then values
        else match ValueOf(d.fields[c.field].desc, data[c.body..c.body + c.len])
             case Bad => values
             case Good(v) => values[c.field := vs + [v]]
    requires c.field < |d.fields|
    ensures Filled(data, d, visited + [c], values')
  {
    hide ValueOf, Collected, HasRoom;
    forall k | 0 <= k < |visited + [c]| ensures (visited + [c])[k].body + (visited + [c])[k].len <= |data| {
    }
    forall i | 0 <= i < |values| ensures values'[i] == Collected(data, d, visited + [c], i) {
      CollectNext(data, d, visited, c, i);
    }
  }

  /** Stores one child's value, if it is of a known field, there is room, and it is well-formed. */
  method FillChild(data: seq<byte>, d: Desc, level: nat, values: seq<seq<Value>>, alloc: seq<nat>, c: Child)
    returns (values': seq<seq<Value>>)
    requires |data| <= MAX_INT && level < MAX_LEVEL && d.kind.SubElements? && WellFormed(d, MAX_LEVEL - level)
    requires |values| == |alloc| == |d.fields| && c.body + c.len <= |data| && -1 <= c.field < |d.fields|
    requires c.field >= 0 ==>
      var f, count := d.fields[c.field], |values[c.field]|;
      count >= alloc[c.field] <==>
        f.multiple && f.desc.kind.SubElements? && f.desc.size > 0 && count >= MAX_ALLOCATION / f.desc.size
    ensures c.field < 0 ==> values' == values
    ensures c.field >= 0 ==>
      values' == var vs := values[c.field];
        if !HasRoom(d.fields[c.field], |vs|) then values
        else match ValueOf(d.fields[c.field].desc, data[c.body..c.body + c.len])
             case Bad => values
             case Good(v) => values[c.field := vs + [v]]
    decreases d, 0
  {
    hide ValueOf;
    values' := values;
    if c.field < 0 {
      return;
    }
    var f, count := d.fields[c.field], |values[c.field]|;
    if count >= alloc[c.field] {
      return;
    }
    if count > 0 && !f.multiple {
      return;
    }
    assert count < alloc[c.field];
    var r := ParseValue(data, c.body, c.len, f.desc, level);
    if r.Good? {
      values' := values[c.field := values[c.field] + [r.value]];
    }
  }

  /** Stores the values of all children, of an input that holds nothing but them; so the test for a
      broken header never fires, and a child that goes past the end is cut off there. */
  method FillFields(data: seq<byte>, d: Desc, level: nat, num: seq<nat>, alloc: seq<nat>)
    returns (values: seq<seq<Value>>)
    requires |data| <= MAX_INT && level < MAX_LEVEL && d.kind.SubElements? && WellFormed(d, MAX_LEVEL - level)
    requires ChildrenEnd(data, d.fields, 0) == |data|
    requires Counted(num, Children(data, d.fields, 0), d.fields, 1) && Allocated(alloc, num, d.fields)
    ensures Filled(data, d, Children(data, d.fields, 0), values)
    decreases d, 1
  {
    hide HeadAt, CountOf, Counted, Allocated, Filled, WellFormed, ValueOf, HasRoom;
    values := seq(|d.fields|, _ => []);
    var p := 0;
    ghost var visited: seq<Child> := [];
    ghost var cs := Children(data, d.fields, 0);
    FillNone(data, d, values);
    while p < |data|
      invariant p <= |data| && cs == visited + Children(data, d.fields, p)
      invariant ChildrenEnd(data, d.fields, p) == |data|
      invariant Filled(data, d, visited, values)
      decreases |data| - p
    {
      var ok, id, body, len := ReadHead(data, p);
      if !ok {
        break;
      }
      if len > |data| - body {
        len := |data| - body;
      }
      var f := FindField(d.fields, id);
      var c := Child(f, body, len);
      ghost var rest := Children(data, d.fields, body + len);
      assert Children(data, d.fields, p) == [c] + rest;
      assert cs == visited + [c] + rest;
      FilledSizes(data, d, visited, values);
      AllocatedSizes(alloc, num, d.fields);
      if f >= 0 {
        RoomForNext(d.fields, num, alloc, cs, visited, c, rest, |values[f]|);
      }
      ghost var was := values;
      values := FillChild(data, d, level, values, alloc, c);
      FillNext(data, d, visited, was, c, values);
      visited := visited + [c];
      p := body + len;
    }
    assert visited + [] == visited;
  }

  lemma FillNone(data: seq<byte>, d: Desc, values: seq<seq<Value>>)
    requires values == seq(|d.fields|, _ => [])
    ensures Filled(data, d, [], values)
  {
  }

  lemma FilledSizes(data: seq<byte>, d: Desc, visited: seq<Child>, values: seq<seq<Value>>)
    requires Filled(data, d, visited, values)
    ensures |values| == |d.fields| && forall i :: 0 <= i < |values| ==> |values[i]| <= CountOf(visited, i)
  {
    hide CountOf;
  }

  lemma AllocatedSizes(alloc: seq<nat>, num: seq<nat>, fields: seq<Field>)
    requires Allocated(alloc, num, fields)
    ensures |alloc| == |num| == |fields|
  {
  }

  /** Values come from the children's contents only. */
  lemma {:induction false} CollectedOfPrefix(data: seq<byte>, e: nat, d: Desc, cs: seq<Child>, i: nat)
    requires e <= |data| && i < |d.fields| && Within(data[..e], cs)
    ensures Within(data, cs) && Collected(data[..e], d, cs, i) == Collected(data, d, cs, i)
    decreases |cs|
  {
    if cs != [] {
      CollectedOfPrefix(data, e, d, cs[..|cs| - 1], i);
      var c := cs[|cs| - 1];
      assert data[..e][c.body..c.body + c.len] == data[c.body..c.body + c.len];
    }
  }

  /** ebml_parse_element: both passes together yield the specified element. */
  method ParseElement(data: seq<byte>, d: Desc, level: nat) returns (e: Element)
    requires |data| <= MAX_INT && d.kind.SubElements? && level <= MAX_LEVEL && WellFormed(d, MAX_LEVEL - level)
    ensures e == Parsed(data, d)
    decreases d, 2
  {
    assert level < MAX_LEVEL;
    hide Children, ChildrenEnd, Counted, Collected, HeadAt;
    var num, end := CountFields(data, d.fields);
    CountedSize(num, Children(data, d.fields, 0), d.fields);
    var alloc := Allocate(num, d.fields);
    SameChildren(data, d.fields, 0);
    ChildrenWithin(data, d.fields, 0);
    ChildrenWithin(data[..end], d.fields, 0);
    var values := FillFields(data[..end], d, level, num, alloc);
    forall i | 0 <= i < |d.fields| ensures values[i] == Collected(data, d, Children(data, d.fields, 0), i) {
      CollectedOfPrefix(data, end, d, Children(data, d.fields, 0), i);
    }
    e := Element(values);
  }

  lemma CountedSize(num: seq<nat>, cs: seq<Child>, fields: seq<Field>)
    requires Counted(num, cs, fields, 1)
    ensures |num| == |fields|
  {
  }

  // ---------- what a parsed element says ----------

  /** The values of all well-formed children of field `i`, in order. */
  function Successes(data: seq<byte>, d: Desc, cs: seq<Child>, i: nat): (vs: seq<Value>)
    requires i < |d.fields| && Within(data, cs)
    ensures |vs| <= CountOf(cs, i)
    ensures d.fields[i].desc.kind.SubElements? ==> |vs| == CountOf(cs, i)
    decreases |cs|
  {
    if cs == [] then []
    else
      var c, vs := cs[|cs| - 1], Successes(data, d, cs[..|cs| - 1], i);
      if c.field != i then vs
      else
        match ValueOf(d.fields[i].desc, data[c.body..c.body + c.len])
        case Bad => vs
        case Good(v) => vs + [v]
  }

  /** The most values a field can hold. */
  function Limited(f: Field, n: nat): nat {
    if !f.multiple then if n > 1 then 1 else n
    else if f.desc.kind.SubElements? && f.desc.size > 0 && n > MAX_ALLOCATION / f.desc.size then
      MAX_ALLOCATION / f.desc.size
    else n
  }

  /** A list holds the value of every well-formed child, in order, and any other field that of the
      first one; a list of structures is cut where the allocation limit says. */
  lemma {:induction false} CollectedIsPrefix(data: seq<byte>, d: Desc, cs: seq<Child>, i: nat)
    requires i < |d.fields| && Within(data, cs)
    ensures var all := Successes(data, d, cs, i);
      Collected(data, d, cs, i) == all[..Limited(d.fields[i], |all|)]
    decreases |cs|
  {
    hide ValueOf;
    if cs != [] {
      CollectedIsPrefix(data, d, cs[..|cs| - 1], i);
    }
  }

  lemma {:induction false} ChildrenAreShort(data: seq<byte>, fields: seq<Field>, p: nat)
    requires p <= |data|
    ensures 2 * |Children(data, fields, p)| <= |data| - p
    decreases |data| - p
  {
    hide HeadAt;
    if p < |data| {
      ChildrenStep(data, fields, p);
      var h := HeadAt(data, p);
      if h.Head? && !Overlong(data, fields, h) {
        ChildrenAreShort(data, fields, h.body + if h.len > |data| - h.body then |data| - h.body else h.len);
      }
    }
  }

  lemma QuotientFits(m: nat, n: nat)
    requires n > 0
    ensures m / n * n <= m < m / n * n + n
  {
  }

  lemma FitsQuotient(k: nat, n: nat, m: nat)
    requires n > 0 && k * n <= m
    ensures k <= m / n
  {
    QuotientFits(m, n);
    if k >= m / n + 1 {
      Times(m / n + 1, k, n);
      Distributes(m / n, n);
    }
  }

  lemma Distributes(q: nat, n: nat)
    ensures (q + 1) * n == q * n + n
  {
  }

  lemma SizesMatter(n: nat, size: nat, length: nat)
    requires 0 < size <= 2 * MAX_ALLOCATION / (length + 1) && 2 * n <= length
    ensures n <= MAX_ALLOCATION / size
  {
    var q := 2 * MAX_ALLOCATION / (length + 1);
    QuotientFits(2 * MAX_ALLOCATION, length + 1);
    Times(size, q, length + 1);
    Times(2 * n, length + 1, size);
    assert 2 * n * size == 2 * (n * size);
    FitsQuotient(n, size, MAX_ALLOCATION);
  }

  /** A parsed list has lost a child if and only if there are more of them than the limit on one
      allocation allows, which cannot be when structures are small compared to the input. */
  lemma ListsAreComplete(data: seq<byte>, d: Desc, i: nat)
    requires i < |d.fields| && d.fields[i].multiple && d.fields[i].desc.kind.SubElements? && d.fields[i].desc.size > 0
    ensures var cs := Children(data, d.fields, 0);
      && Within(data, cs)
      && (Parsed(data, d).values[i] == Successes(data, d, cs, i)
          <==> CountOf(cs, i) <= MAX_ALLOCATION / d.fields[i].desc.size)
      && (d.fields[i].desc.size <= 2 * MAX_ALLOCATION / (|data| + 1) ==>
            CountOf(cs, i) <= MAX_ALLOCATION / d.fields[i].desc.size)
  {
    hide HeadAt, Children, ValueOf;
    ChildrenWithin(data, d.fields, 0);
    ChildrenAreShort(data, d.fields, 0);
    var cs := Children(data, d.fields, 0);
    CollectedIsPrefix(data, d, cs, i);
    if d.fields[i].desc.size <= 2 * MAX_ALLOCATION / (|data| + 1) {
      SizesMatter(CountOf(cs, i), d.fields[i].desc.size, |data|);
    }
  }
}
