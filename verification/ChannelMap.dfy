/** Channel maps (audio/chmap.c): which speaker each channel drives, the bit masks other software
    uses for them, and how to get from one order of channels to another. */
module ChannelMap {

  const MAX_CHANNELS: nat := 16
  const NA: nat := 64           // a channel that drives no speaker; may occur repeatedly
  const SPEAKER_COUNT: nat := 65
  const FL: nat := 0
  const FR: nat := 1
  const FC: nat := 2
  const BL: nat := 4
  const BR: nat := 5
  const SL: nat := 9
  const SR: nat := 10
  const SDL: nat := 33
  const SDR: nat := 34

  /** The speaker of each channel. */
  type Map = seq<nat>

  /** A 64-bit mask: the numbers of the bits that are set. */
  type Mask = set<nat>

  const MONO: Map := [FC]
  const STEREO: Map := [FL, FR]

  /** Speakers are mapped uniquely, and there is at least one channel. */
  predicate Valid(m: Map) {
    && m != []
    && (forall i :: 0 <= i < |m| ==> m[i] < SPEAKER_COUNT)
    && (forall i, j :: 0 <= i < j < |m| && m[i] == m[j] ==> m[i] == NA)
  }

  predicate AllNa(m: Map) {
    forall i :: 0 <= i < |m| ==> m[i] == NA
  }

  /** Only the number of channels is known. */
  predicate Unknown(m: Map) {
    Valid(m) && AllNa(m)
  }

  method IsValid(m: Map) returns (valid: bool)
    ensures valid == Valid(m)
  {
    var mapped := seq(SPEAKER_COUNT, _ => false);
    for n := 0 to |m|
      invariant |mapped| == SPEAKER_COUNT
      invariant forall i :: 0 <= i < n ==> m[i] < SPEAKER_COUNT
      invariant forall i, j :: 0 <= i < j < n && m[i] == m[j] ==> m[i] == NA
      invariant forall sp :: 0 <= sp < SPEAKER_COUNT ==>
        (mapped[sp] <==> sp != NA && exists i :: 0 <= i < n && m[i] == sp)
    {
      var sp := m[n];
      if sp >= SPEAKER_COUNT || mapped[sp] {
        return false;
      }
      if sp != NA {
        mapped := mapped[sp := true];
      }
    }
    return |m| > 0;
  }

  method IsUnknown(m: Map) returns (unknown: bool)
    ensures unknown == Unknown(m)
  {
    for n := 0 to |m|
      invariant forall i :: 0 <= i < n ==> m[i] == NA
    {
      if m[n] != NA {
        return false;
      }
    }
    unknown := IsValid(m);
  }

  /** The speakers without the silent channels. */
  function WithoutNa(m: Map): (r: Map)
    ensures |r| <= |m|
    ensures forall sp :: sp in r <==> sp in m && sp != NA
  {
    if m == [] then []
    else
      var r := WithoutNa(m[..|m| - 1]);
      assert m == m[..|m| - 1] + [m[|m| - 1]];
      if m[|m| - 1] == NA then r else r + [m[|m| - 1]]
  }

  method RemoveNa(m: Map) returns (r: Map)
    ensures r == WithoutNa(m)
  {
    r := [];
    for n := 0 to |m|
      invariant r == WithoutNa(m[..n])
    {
      assert m[..n + 1][..n] == m[..n];
      if m[n] != NA {
        r := r + [m[n]];
      }
    }
    assert m[..|m|] == m;
  }

  lemma {:induction false} WithoutNaIsDistinct(m: Map)
    requires forall i, j :: 0 <= i < j < |m| && m[i] == m[j] ==> m[i] == NA
    ensures var r := WithoutNa(m); forall i, j :: 0 <= i < j < |r| ==> r[i] != r[j]
  {
    if m != [] {
      var p := m[..|m| - 1];
      WithoutNaIsDistinct(p);
      if m[|m| - 1] != NA {
        assert m[|m| - 1] !in p;
        forall i, j | 0 <= i < j < |WithoutNa(m)| ensures WithoutNa(m)[i] != WithoutNa(m)[j] {
          assert WithoutNa(p)[i] in WithoutNa(p);
        }
      }
    }
  }

  // ---------- masks ----------

  /** The `n` lowest bits. */
  function LowBits(n: nat): (mask: Mask)
    ensures (forall b: nat :: b in mask <==> b < n) && |mask| == n
  {
    if n == 0 then {} else LowBits(n - 1) + {n - 1}
  }

  /** The mask of a map, whatever its order; an unknown map gets one of the right size. */
  function MaskOf(m: Map): (mask: Mask)
    ensures forall b :: b in mask ==> b < 64
  {
    if |m| > 64 then {}
    else if Unknown(m) then LowBits(|m|)
    else set i: nat | i < |m| && m[i] < 64 :: m[i]
  }

  method ToMask(m: Map) returns (mask: Mask)
    ensures mask == MaskOf(m)
  {
    if |m| > 64 {
      return {};
    }
    var unknown := IsUnknown(m);
    if unknown {
      return LowBits(|m|);
    }
    mask := {};
    for n := 0 to |m|
      invariant mask == set i: nat | i < n && m[i] < 64 :: m[i]
    {
      if m[n] < 64 {
        mask := mask + {m[n]};
      }
    }
  }

  /** The set bits below `n`, in order. */
  function BitsBelow(mask: Mask, n: nat): (m: Map)
    ensures |m| <= n
  {
    if n == 0 then [] else BitsBelow(mask, n - 1) + if n - 1 in mask then [n - 1] else []
  }

  /** The map in mask order; none if it has too many channels. */
  function MapOf(mask: Mask): Map {
    var m := BitsBelow(mask, 64);
    if |m| > MAX_CHANNELS then [] else m
  }

  lemma {:induction false} BitsBelowGrows(mask: Mask, n: nat, k: nat)
    requires n <= k
    ensures |BitsBelow(mask, n)| <= |BitsBelow(mask, k)|
    decreases k
  {
    if n < k {
      BitsBelowGrows(mask, n, k - 1);
    }
  }

  method FromMask(mask: Mask) returns (m: Map)
    ensures m == MapOf(mask)
  {
    m := [];
    for n := 0 to 64
      invariant m == BitsBelow(mask, n) && |m| <= MAX_CHANNELS
    {
      if n in mask {
        if |m| >= MAX_CHANNELS {
          BitsBelowGrows(mask, n + 1, 64);
          return [];
        }
        m := m + [n];
      }
    }
  }

  predicate Rising(m: Map) {
    forall i, j :: 0 <= i < j < |m| ==> m[i] < m[j]
  }

  lemma BelowAll(m: Map, n: nat)
    requires Rising(m) && forall x :: x in m ==> x < n
    ensures Rising(m + [n])
  {
    forall i | 0 <= i < |m| ensures m[i] < n {
      assert m[i] in m;
    }
  }

  lemma {:induction false} BitsBelowAre(mask: Mask, n: nat)
    ensures var m := BitsBelow(mask, n);
      && Rising(m) && (forall b :: b in m <==> b in mask && b < n)
      && |m| == |set b: nat | b in mask && b < n|
  {
    if n > 0 {
      BitsBelowAre(mask, n - 1);
      var s, t := set b: nat | b in mask && b < n, set b: nat | b in mask && b < n - 1;
      var p, m := BitsBelow(mask, n - 1), BitsBelow(mask, n);
      BelowAll(p, n - 1);
      if n - 1 in mask {
        assert s == t + {n - 1};
      } else {
        assert s == t;
      }
    } else {
      assert (set b: nat | b in mask && b < 0) == {};
    }
  }

  /** A mask with one to 16 bits set is recovered from its map. */
  lemma MaskRoundTrip(mask: Mask)
    requires (forall b :: b in mask ==> b < 64) && 1 <= |mask| <= MAX_CHANNELS
    ensures MaskOf(MapOf(mask)) == mask && |MapOf(mask)| == |mask|
  {
    BitsBelowAre(mask, 64);
    assert mask == set b: nat | b in mask && b < 64;
    var m := BitsBelow(mask, 64);
    assert m[0] in m;
    assert !Unknown(m);
    var r := MaskOf(m);
    forall b ensures b in r <==> b in mask {
      if b in mask {
        assert b in m;
        var i :| 0 <= i < |m| && m[i] == b;
      }
    }
  }

  /** A mask has a map exactly if it has no more bits than there may be channels. */
  lemma TooManyBits(mask: Mask)
    requires (forall b :: b in mask ==> b < 64) && mask != {}
    ensures MapOf(mask) == [] <==> |mask| > 16
  {
    BitsBelowAre(mask, 64);
    assert mask == set b: nat | b in mask && b < 64;
  }

  /** The order masks imply. */
  predicate InMaskOrder(m: Map) {
    Valid(m) && !AllNa(m) && Rising(m) && forall i :: 0 <= i < |m| ==> m[i] < 64
  }

  lemma RisingRest(m: Map)
    requires Rising(m) && m != []
    ensures forall x :: x in m[..|m| - 1] <==> x in m && x != m[|m| - 1]
    ensures forall x :: x in m ==> x <= m[|m| - 1]
    ensures m == m[..|m| - 1] + [m[|m| - 1]] && m[|m| - 1] in m
  {
    var p := m[..|m| - 1];
    assert m == p + [m[|m| - 1]];
  }

  lemma {:induction false} RisingIsUnique(a: Map, b: Map)
    requires Rising(a) && Rising(b) && forall x :: x in a <==> x in b
    ensures a == b
    decreases |a|
  {
    assert b == [] || b[0] in b;
    assert a == [] || a[0] in a;
    if a != [] {
      RisingRest(a);
      RisingRest(b);
      hide Rising;
      assert Rising(a[..|a| - 1]) && Rising(b[..|b| - 1]) by {
        RisingPrefix(a);
        RisingPrefix(b);
      }
      var x, y := a[|a| - 1], b[|b| - 1];
      assert x in b && y in a;
      assert x == y;
      var p, q := a[..|a| - 1], b[..|b| - 1];
      forall e ensures e in p <==> e in q {
        assert e in p <==> e in a && e != x;
        assert e in q <==> e in b && e != y;
      }
      RisingIsUnique(a[..|a| - 1], b[..|b| - 1]);
    }
  }

  lemma RisingPrefix(m: Map)
    requires Rising(m) && m != []
    ensures Rising(m[..|m| - 1])
  {
  }

  /** And a map in mask order from its mask. */
  lemma MapRoundTrip(m: Map)
    requires InMaskOrder(m) && |m| <= MAX_CHANNELS
    ensures MapOf(MaskOf(m)) == m
  {
    var mask := MaskOf(m);
    BitsBelowAre(mask, 64);
    var b := BitsBelow(mask, 64);
    forall x ensures x in b <==> x in m {
      if x in m {
        var i :| 0 <= i < |m| && m[i] == x;
      }
    }
    RisingIsUnique(b, m);
  }

  /** A map of which only the size is known has a mask of that size, and a map without silent channels
      one with a bit for each of its speakers. */
  lemma MaskIs(m: Map, sp: nat)
    requires Valid(m) && |m| <= 64
    ensures Unknown(m) ==> |MaskOf(m)| == |m| && (sp in MaskOf(m) <==> sp < |m|)
    ensures !Unknown(m) ==> (sp in MaskOf(m) <==> sp in m && sp != NA)
  {
    if sp in m {
      var i :| 0 <= i < |m| && m[i] == sp;
    }
  }

  /** Number of channels only in `a`. */
  function Diff(a: Map, b: Map): nat {
    |MaskOf(a) - MaskOf(b)|
  }

  // ---------- order ----------

  /** qsort, by speaker id. */
  function Insert(m: Map, sp: nat): Map {
    if m == [] || m[0] >= sp then [sp] + m else [m[0]] + Insert(m[1..], sp)
  }

  function Sorted(m: Map): Map {
    if m == [] then [] else Insert(Sorted(m[1..]), m[0])
  }

  predicate Ordered(m: Map) {
    forall i, j :: 0 <= i < j < |m| ==> m[i] <= m[j]
  }

  lemma FirstAndRest(m: Map)
    requires m != []
    ensures multiset(m) == multiset{m[0]} + multiset(m[1..])
    ensures multiset(m[1..]) == multiset(m) - multiset{m[0]}
  {
    assert m == [m[0]] + m[1..];
  }

  lemma {:induction false} InsertKeeps(m: Map, sp: nat)
    ensures multiset(Insert(m, sp)) == multiset(m) + multiset{sp}
  {
    if m != [] && m[0] < sp {
      InsertKeeps(m[1..], sp);
      FirstAndRest(m);
    }
  }

  lemma {:induction false} InsertIs(m: Map, sp: nat)
    requires Ordered(m)
    ensures Ordered(Insert(m, sp))
    ensures forall k :: 0 <= k < |Insert(m, sp)| ==>
      Insert(m, sp)[k] >= (if m == [] || m[0] >= sp then sp else m[0])
  {
    if m != [] && m[0] < sp {
      InsertIs(m[1..], sp);
      var r := Insert(m[1..], sp);
      assert forall k :: 0 <= k < |r| ==> r[k] >= m[0];
    }
  }

  lemma {:induction false} SortedIs(m: Map)
    ensures Ordered(Sorted(m)) && multiset(Sorted(m)) == multiset(m)
  {
    if m != [] {
      SortedIs(m[1..]);
      InsertIs(Sorted(m[1..]), m[0]);
      InsertKeeps(Sorted(m[1..]), m[0]);
      FirstAndRest(m);
    }
  }

  lemma SmallestIsFirst(a: Map, b: Map)
    requires a != [] && b != [] && Ordered(a) && multiset(a) == multiset(b)
    ensures a[0] <= b[0]
  {
    assert b[0] in multiset(b);
    assert b[0] in multiset(a);
    assert b[0] in a;
  }

  lemma OrderedRest(m: Map)
    requires Ordered(m) && m != []
    ensures Ordered(m[1..])
  {
  }

  lemma RestsMatch(a: Map, b: Map)
    requires a != [] && b != [] && a[0] == b[0] && multiset(a) == multiset(b)
    ensures multiset(a[1..]) == multiset(b[1..])
  {
    FirstAndRest(a);
    FirstAndRest(b);
  }

  lemma {:induction false} OrderedIsUnique(a: Map, b: Map)
    requires Ordered(a) && Ordered(b) && multiset(a) == multiset(b)
    ensures a == b
    decreases |a|
  {
    assert |a| == |multiset(a)| == |multiset(b)| == |b|;
    if a != [] {
      SmallestIsFirst(a, b);
      SmallestIsFirst(b, a);
      OrderedRest(a);
      OrderedRest(b);
      RestsMatch(a, b);
      hide Ordered;
      OrderedIsUnique(a[1..], b[1..]);
      assert a == [a[0]] + a[1..] && b == [b[0]] + b[1..];
    }
  }

  /** The maps have the same channels, if in different order. */
  predicate EqualReordered(a: Map, b: Map) {
    Sorted(a) == Sorted(b)
  }

  lemma EqualReorderedIs(a: Map, b: Map)
    ensures EqualReordered(a, b) <==> multiset(a) == multiset(b)
  {
    SortedIs(a);
    SortedIs(b);
    if multiset(a) == multiset(b) {
      OrderedIsUnique(Sorted(a), Sorted(b));
    }
  }

  /** The first channel that drives a speaker, or -1. */
  function IndexOf(m: Map, sp: nat): (i: int)
    ensures -1 <= i < |m|
    ensures i >= 0 ==> m[i] == sp && sp !in m[..i]
    ensures i < 0 <==> sp !in m
  {
    if m == [] then -1
    else
      var i := IndexOf(m[..|m| - 1], sp);
      assert m == m[..|m| - 1] + [m[|m| - 1]];
      if i >= 0 then assert m[..i] == m[..|m| - 1][..i]; i
      else if m[|m| - 1] == sp then |m| - 1 else -1
  }

  /** For every channel of `to` the one of `from` to take it from, or -1. */
  function Reorder(from: Map, to: Map, n: nat): int
    requires n < |to|
  {
    if Unknown(from) || Unknown(to) then if n < |from| then n else -1
    else IndexOf(from, to[n])
  }

  /** By speaker if both maps name any, and by position if not. */
  lemma ReorderIs(from: Map, to: Map, n: nat)
    requires n < |to| && Valid(from) && Valid(to)
    ensures var r := Reorder(from, to, n);
      && -1 <= r < |from|
      && (AllNa(from) || AllNa(to) ==> r == if n < |from| then n else -1)
      && (!AllNa(from) && !AllNa(to) ==>
            (r >= 0 ==> from[r] == to[n] && forall i :: 0 <= i < r ==> from[i] != to[n])
            && (r < 0 ==> forall i :: 0 <= i < |from| ==> from[i] != to[n]))
  {
    if !AllNa(from) && !AllNa(to) && IndexOf(from, to[n]) >= 0 {
      var r := IndexOf(from, to[n]);
      assert forall i :: 0 <= i < r ==> from[..r][i] == from[i];
    }
  }

  method GetReorder(src: array<int>, from: Map, to: Map)
    requires src.Length == MAX_CHANNELS && |to| <= MAX_CHANNELS
    modifies src
    ensures forall n :: 0 <= n < |to| ==> src[n] == Reorder(from, to, n)
    ensures forall n :: |to| <= n < MAX_CHANNELS ==> src[n] == -1
  {
    for n := 0 to MAX_CHANNELS
      invariant forall i :: 0 <= i < n ==> src[i] == -1
    {
      src[n] := -1;
    }
    var fromUnknown := IsUnknown(from);
    var toUnknown := IsUnknown(to);
    if fromUnknown || toUnknown {
      for n := 0 to |to|
        invariant forall i :: 0 <= i < n ==> src[i] == Reorder(from, to, i)
        invariant forall i :: n <= i < MAX_CHANNELS ==> src[i] == -1
      {
        src[n] := if n < |from| then n else -1;
      }
      return;
    }
    for n := 0 to |to|
      invariant forall i :: 0 <= i < n ==> src[i] == Reorder(from, to, i)
      invariant forall i :: n <= i < MAX_CHANNELS ==> src[i] == -1
    {
      var i := FindSpeaker(from, to[n]);
      if i >= 0 {
        src[n] := i;
      }
    }
  }

  method FindSpeaker(m: Map, sp: nat) returns (i: int)
    ensures i == IndexOf(m, sp)
  {
    for k := 0 to |m|
      invariant sp !in m[..k]
    {
      if m[k] == sp {
        return k;
      }
      assert m[..k + 1] == m[..k] + [m[k]];
    }
    assert m[..|m|] == m;
    return -1;
  }
}
