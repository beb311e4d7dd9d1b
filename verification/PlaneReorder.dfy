/** Putting audio planes in the order of a channel map, with spare planes for silent channels, and
    turning a reordering around (audio/aconverter.c). */
module PlaneReorder {
  import opened ChannelMap

  /** A plane of samples: which buffer it is, and whether it was overwritten with silence. */
  datatype Plane = Plane(buffer: nat, silent: bool)

  function NaBefore(m: Map, n: nat): (c: nat)
    requires n <= |m|
    ensures c <= n
  {
    if n == 0 then 0 else NaBefore(m, n - 1) + if m[n - 1] == NA then 1 else 0
  }

  function SpeakerCount(m: Map): nat {
    |m| - NaBefore(m, |m|)
  }

  /** What `reorder` says must be in range, and leave only as many channels as are silent. */
  predicate Reorderable(reorder: seq<int>, m: Map) {
    && |reorder| == |m|
    && (forall n :: 0 <= n < |m| ==> -1 <= reorder[n] < |m|)
    && (forall n :: 0 <= n < |m| && reorder[n] < 0 ==> m[n] == NA)
  }

  /** The plane channel `n` gets: the one `reorder` names, or the next one past the speakers'. */
  function Source(reorder: seq<int>, m: Map, n: nat): (s: nat)
    requires Reorderable(reorder, m) && n < |m|
  {
    if reorder[n] >= 0 then reorder[n] else SpeakerCount(m) + Unnamed(reorder, n)
  }

  /** How many channels before the `n`th are not named by `reorder`. */
  function Unnamed(reorder: seq<int>, n: nat): (c: nat)
    requires n <= |reorder|
    ensures c <= n
  {
    if n == 0 then 0 else Unnamed(reorder, n - 1) + if reorder[n - 1] < 0 then 1 else 0
  }

  lemma {:induction false} UnnamedIsNa(reorder: seq<int>, m: Map, n: nat, k: nat)
    requires Reorderable(reorder, m) && n <= k <= |m|
    ensures Unnamed(reorder, n) + (if n < k && reorder[n] < 0 then 1 else 0) <= NaBefore(m, k)
    decreases k
  {
    if k > 0 {
      if n < k {
        UnnamedIsNa(reorder, m, if n < k - 1 then n else k - 1, k - 1);
      } else {
        UnnamedIsNa(reorder, m, n - 1, k - 1);
      }
    }
  }

  lemma SourceInRange(reorder: seq<int>, m: Map, n: nat)
    requires Reorderable(reorder, m) && n < |m|
    ensures Source(reorder, m, n) < |m|
  {
    UnnamedIsNa(reorder, m, n, |m|);
  }

  /** Channel `n`'s plane; one that no sample was written to is silenced. */
  function NewPlane(was: seq<Plane>, reorder: seq<int>, m: Map, n: nat): Plane
    requires Reorderable(reorder, m) && |was| == |m| && n < |m|
  {
    SourceInRange(reorder, m, n);
    var source := was[Source(reorder, m, n)];
    if reorder[n] >= 0 then source else Plane(source.buffer, true)
  }

  /** reorder_planes. */
  method ReorderPlanes(planes: array<Plane>, reorder: seq<int>, newmap: Map)
    requires planes.Length == |newmap| <= MAX_CHANNELS && Reorderable(reorder, newmap)
    modifies planes
    ensures forall n :: 0 <= n < |newmap| ==> planes[n] == NewPlane(old(planes[..]), reorder, newmap, n)
  {
    ghost var was := planes[..];
    var oldPlanes := planes[..];
    var nextNa := 0;
    for n := 0 to |newmap|
      invariant nextNa == n - NaBefore(newmap, n)
    {
      if newmap[n] != NA {
        nextNa := nextNa + 1;
      }
    }
    for n := 0 to |newmap|
      invariant nextNa == SpeakerCount(newmap) + Unnamed(reorder, n)
      invariant forall i :: 0 <= i < n ==> planes[i] == NewPlane(was, reorder, newmap, i)
    {
      var src := reorder[n];
      SourceInRange(reorder, newmap, n);
      if src >= 0 {
        planes[n] := oldPlanes[src];
      } else {
        assert nextNa < |newmap|;
        planes[n] := Plane(oldPlanes[nextNa].buffer, true);
        nextNa := nextNa + 1;
      }
    }
  }

  // ---------- what it amounts to for a map with silent channels inserted ----------

  /** `to` is `from`'s speakers in any order, with silent channels inserted. */
  ghost predicate Extends(from: Map, to: Map) {
    && Valid(from) && Valid(to) && NA !in from && !AllNa(to)
    && (forall sp :: sp in from <==> sp in to && sp != NA)
  }

  /** What GetReorder makes of the two maps. */
  function ReorderOf(from: Map, to: Map): (r: seq<int>)
    ensures |r| == |to|
  {
    seq(|to|, n requires 0 <= n < |to| => Reorder(from, to, n))
  }

  lemma NotUnknown(from: Map, to: Map)
    requires Extends(from, to)
    ensures !Unknown(from) && !Unknown(to)
    ensures forall n :: 0 <= n < |to| ==> Reorder(from, to, n) == IndexOf(from, to[n])
  {
    assert from[0] in from;
  }

  lemma CountsAgree(from: Map, to: Map)
    requires Extends(from, to)
    ensures SpeakerCount(to) == |from| && |from| <= |to|
  {
    var s := set sp | sp in from;
    var t := set i | 0 <= i < |to| && to[i] != NA :: to[i];
    assert s == t by {
      forall sp ensures sp in s <==> sp in t {
        if sp in s {
          assert sp in to;
          var i :| 0 <= i < |to| && to[i] == sp;
        }
      }
    }
    DistinctSize(from, |from|);
    SpeakersSize(to, |to|);
    assert (set i | 0 <= i < |from| :: from[i]) == s;
  }

  lemma {:induction false} DistinctSize(m: Map, n: nat)
    requires Valid(m) && NA !in m && n <= |m|
    ensures |set i | 0 <= i < n :: m[i]| == n
  {
    var t := set i | 0 <= i < n :: m[i];
    if n > 0 {
      DistinctSize(m, n - 1);
      var s := set i | 0 <= i < n - 1 :: m[i];
      assert m[n - 1] !in s;
      assert t == s + {m[n - 1]};
    } else {
      assert t == {};
    }
  }

  lemma {:induction false} SpeakersSize(m: Map, n: nat)
    requires Valid(m) && n <= |m|
    ensures |set i | 0 <= i < n && m[i] != NA :: m[i]| == n - NaBefore(m, n)
  {
    var t := set i | 0 <= i < n && m[i] != NA :: m[i];
    if n > 0 {
      SpeakersSize(m, n - 1);
      var s := set i | 0 <= i < n - 1 && m[i] != NA :: m[i];
      if m[n - 1] == NA {
        assert s == t;
      } else {
        assert m[n - 1] !in s;
        assert t == s + {m[n - 1]};
      }
    } else {
      assert t == {};
    }
  }

  lemma {:induction false} UnnamedAreNa(from: Map, to: Map, n: nat)
    requires Extends(from, to) && n <= |to|
    ensures Unnamed(ReorderOf(from, to), n) == NaBefore(to, n)
  {
    NotUnknown(from, to);
    if n > 0 {
      UnnamedAreNa(from, to, n - 1);
    }
  }

  lemma {:induction false} NaBeforeGrows(m: Map, i: nat, j: nat)
    requires i < j <= |m|
    ensures NaBefore(m, i) + (if m[i] == NA then 1 else 0) <= NaBefore(m, j)
    decreases j
  {
    if i < j - 1 {
      NaBeforeGrows(m, i, j - 1);
    }
  }

  lemma ExtendsIsReorderable(from: Map, to: Map)
    requires Extends(from, to)
    ensures Reorderable(ReorderOf(from, to), to)
  {
    NotUnknown(from, to);
    CountsAgree(from, to);
  }

  /** No plane is lost or used twice: two channels never get the same one, a speaker's channel gets
      the plane of that speaker, and silent channels get the planes past the speakers'. */
  lemma EveryPlaneOnce(from: Map, to: Map, i: nat, j: nat)
    requires Extends(from, to) && i < j < |to|
    ensures Reorderable(ReorderOf(from, to), to)
    ensures var r := ReorderOf(from, to); var s, t := Source(r, to, i), Source(r, to, j);
      && s < |to| && t < |to| && s != t
      && (to[i] != NA ==> s < |from| && from[s] == to[i] && r[i] >= 0)
      && (to[i] == NA ==> s >= |from| && r[i] < 0)
      && (to[j] != NA ==> t < |from| && from[t] == to[j] && r[j] >= 0)
      && (to[j] == NA ==> t >= |from| && r[j] < 0)
  {
    ExtendsIsReorderable(from, to);
    NotUnknown(from, to);
    CountsAgree(from, to);
    UnnamedAreNa(from, to, i);
    UnnamedAreNa(from, to, j);
    NaBeforeGrows(to, i, j);
    SourceInRange(ReorderOf(from, to), to, i);
    SourceInRange(ReorderOf(from, to), to, j);
    assert to[i] in to && to[j] in to;
  }

  lemma {:induction false} NthNa(m: Map, n: nat, k: nat) returns (i: nat)
    requires n <= |m| && k < NaBefore(m, n)
    ensures i < n && m[i] == NA && NaBefore(m, i) == k
    decreases n
  {
    if m[n - 1] == NA && k == NaBefore(m, n - 1) {
      i := n - 1;
    } else {
      i := NthNa(m, n - 1, k);
    }
  }

  /** And every plane is used. */
  lemma EveryPlaneUsed(from: Map, to: Map, p: nat) returns (n: nat)
    requires Extends(from, to) && p < |to|
    ensures Reorderable(ReorderOf(from, to), to)
    ensures n < |to| && Source(ReorderOf(from, to), to, n) == p
  {
    ExtendsIsReorderable(from, to);
    NotUnknown(from, to);
    CountsAgree(from, to);
    if p < |from| {
      assert from[p] in from && from[p] in to;
      n :| n < |to| && to[n] == from[p];
    } else {
      n := NthNa(to, |to|, p - |from|);
      UnnamedAreNa(from, to, n);
    }
  }

  // ---------- the planes themselves ----------

  function Buffers(planes: seq<Plane>): (bs: seq<nat>)
    ensures |bs| == |planes|
  {
    seq(|planes|, n requires 0 <= n < |planes| => planes[n].buffer)
  }

  /** Positions in `s`, none twice. */
  predicate Picks(idx: seq<nat>, s: seq<nat>) {
    && (forall i :: 0 <= i < |idx| ==> idx[i] < |s|)
    && (forall i, j :: 0 <= i < j < |idx| ==> idx[i] != idx[j])
  }

  function Picked(idx: seq<nat>, s: seq<nat>): (t: seq<nat>)
    requires Picks(idx, s)
    ensures |t| == |idx|
  {
    seq(|idx|, i requires 0 <= i < |idx| => s[idx[i]])
  }

  lemma PickedLast(idx: seq<nat>, s: seq<nat>, j: nat) returns (rest: seq<nat>)
    requires Picks(idx, s) && s != [] && j < |idx| && idx[j] == |s| - 1
    ensures rest == idx[..j] + idx[j + 1..] && Picks(rest, s[..|s| - 1])
    ensures multiset(Picked(idx, s)) == multiset(Picked(rest, s[..|s| - 1])) + multiset{s[|s| - 1]}
  {
    rest := idx[..j] + idx[j + 1..];
    var last := |s| - 1;
    forall i | 0 <= i < |rest| ensures rest[i] < last {
      assert rest[i] == idx[if i < j then i else i + 1];
    }
    forall i, k | 0 <= i < k < |rest| ensures rest[i] != rest[k] {
      assert rest[i] == idx[if i < j then i else i + 1] && rest[k] == idx[if k < j then k else k + 1];
    }
    var p := Picked(idx, s);
    assert p == p[..j] + [s[last]] + p[j + 1..];
    assert Picked(rest, s[..last]) == p[..j] + p[j + 1..];
  }

  lemma PickedOthers(idx: seq<nat>, s: seq<nat>)
    requires Picks(idx, s) && s != [] && forall j :: 0 <= j < |idx| ==> idx[j] != |s| - 1
    ensures Picks(idx, s[..|s| - 1]) && Picked(idx, s[..|s| - 1]) == Picked(idx, s)
  {
  }

  /** Nothing is picked more often than it is there. */
  lemma {:induction false} PickedWithin(idx: seq<nat>, s: seq<nat>)
    requires Picks(idx, s)
    ensures multiset(Picked(idx, s)) <= multiset(s)
    decreases |s|
  {
    if idx != [] {
      assert idx[0] < |s|;
      hide Picks, Picked;
      var last := |s| - 1;
      assert s == s[..last] + [s[last]];
      if j :| 0 <= j < |idx| && idx[j] == last {
        var rest := PickedLast(idx, s, j);
        PickedWithin(rest, s[..last]);
      } else {
        PickedOthers(idx, s);
        PickedWithin(idx, s[..last]);
      }
    }
  }

  lemma SameSize(a: multiset<nat>, b: multiset<nat>)
    requires a <= b && |a| == |b|
    ensures a == b
  {
    assert b == a + (b - a);
  }

  /** A channel has the plane of its speaker, with its samples, or a silenced one. */
  predicate PlaneFits(was: seq<Plane>, from: Map, sp: nat, plane: Plane) {
    if sp == NA then plane.silent else exists k :: 0 <= k < |from| && k < |was| && from[k] == sp && plane == was[k]
  }

  /** Putting planes in the order of a map that adds silent channels: every speaker's channel holds the
      plane that the speaker had, untouched; every other one is silent; and no plane is lost or
      used twice. */
  lemma {:induction false} PlanesFollowSpeakers(from: Map, to: Map, was: seq<Plane>, planes: seq<Plane>)
    requires Extends(from, to) && |was| == |planes| == |to|
    requires Reorderable(ReorderOf(from, to), to)
    requires forall n :: 0 <= n < |to| ==> planes[n] == NewPlane(was, ReorderOf(from, to), to, n)
    ensures forall n :: 0 <= n < |to| ==> PlaneFits(was, from, to[n], planes[n])
    ensures multiset(Buffers(planes)) == multiset(Buffers(was))
  {
    hide Extends, Reorderable, Source;
    var r := ReorderOf(from, to);
    forall n | 0 <= n < |to| ensures PlaneFits(was, from, to[n], planes[n]) {
      PlaneOf(from, to, n);
    }
    var idx := SourcesOf(from, to);
    assert Picked(idx, Buffers(was)) == Buffers(planes);
    PickedWithin(idx, Buffers(was));
    SameSize(multiset(Buffers(planes)), multiset(Buffers(was)));
  }

  /** Giving the resampler's planes to the channels of the output map, with the order that was derived
      from the two maps when it was configured. */
  method ReorderOutput(planes: array<Plane>, from: Map, to: Map)
    requires Extends(from, to) && planes.Length == |to| <= MAX_CHANNELS
    modifies planes
    ensures forall n :: 0 <= n < |to| ==> PlaneFits(old(planes[..]), from, to[n], planes[n])
    ensures multiset(Buffers(planes[..])) == multiset(Buffers(old(planes[..])))
  {
    hide Extends, PlaneFits, NewPlane, Reorderable;
    ghost var was := planes[..];
    ExtendsIsReorderable(from, to);
    var reorder := new int[MAX_CHANNELS];
    GetReorder(reorder, from, to);
    assert reorder[..|to|] == ReorderOf(from, to);
    ReorderPlanes(planes, reorder[..|to|], to);
    PlanesFollowSpeakers(from, to, was, planes[..]);
  }

  lemma PlaneOf(from: Map, to: Map, n: nat)
    requires Extends(from, to) && n < |to|
    ensures |from| <= |to| && Reorderable(ReorderOf(from, to), to)
    ensures var r := ReorderOf(from, to); var s := Source(r, to, n);
      && s < |to| && (to[n] != NA ==> s < |from| && from[s] == to[n] && r[n] >= 0) && (to[n] == NA ==> r[n] < 0)
  {
    CountsAgree(from, to);
    ExtendsIsReorderable(from, to);
    if n + 1 < |to| {
      EveryPlaneOnce(from, to, n, n + 1);
    } else if n > 0 {
      EveryPlaneOnce(from, to, n - 1, n);
    } else {
      NotUnknown(from, to);
      SourceInRange(ReorderOf(from, to), to, n);
      assert to[n] in to;
    }
  }

  lemma SourcesOf(from: Map, to: Map) returns (idx: seq<nat>)
    requires Extends(from, to)
    ensures Reorderable(ReorderOf(from, to), to) && |idx| == |to|
    ensures forall n :: 0 <= n < |to| ==> idx[n] == Source(ReorderOf(from, to), to, n) < |to|
    ensures forall i, j :: 0 <= i < j < |idx| ==> idx[i] != idx[j]
  {
    hide Extends, Source, Reorderable;
    ExtendsIsReorderable(from, to);
    var r := ReorderOf(from, to);
    idx := seq(|to|, n requires 0 <= n < |to| => Source(r, to, n));
    forall n | 0 <= n < |to| ensures Source(r, to, n) < |to| {
      SourceInRange(r, to, n);
    }
    forall i, j | 0 <= i < j < |idx| ensures idx[i] != idx[j] {
      EveryPlaneOnce(from, to, i, j);
    }
  }

  // ---------- turning a reordering around ----------

  function LastWith(map_: seq<int>, i: int, n: nat): (k: nat)
    requires n <= |map_|
    ensures k < n || k == 0
  {
    if n == 0 then 0 else if map_[n - 1] == i then n - 1 else LastWith(map_, i, n - 1)
  }

  /** transpose_order: entry `i` becomes where `i` was; what was past `num` becomes 0. */
  method TransposeOrder(map_: array<int>, num: nat)
    requires map_.Length == MAX_CHANNELS && num <= MAX_CHANNELS
    modifies map_
    ensures forall i :: 0 <= i < num ==> map_[i] == LastWith(old(map_[..]), i, num)
    ensures forall i :: num <= i < MAX_CHANNELS ==> map_[i] == 0
  {
    ghost var was := map_[..];
    var nmap := new int[MAX_CHANNELS](_ => 0);
    for n := 0 to num
      invariant map_[..] == was
      invariant forall i :: 0 <= i < num ==> nmap[i] == LastWith(was, i, n)
      invariant forall i :: num <= i < MAX_CHANNELS ==> nmap[i] == 0
    {
      for i := 0 to num
        invariant map_[..] == was
        invariant forall k :: 0 <= k < i ==> nmap[k] == LastWith(was, k, n + 1)
        invariant forall k :: i <= k < num ==> nmap[k] == LastWith(was, k, n)
        invariant forall k :: num <= k < MAX_CHANNELS ==> nmap[k] == 0
      {
        if map_[n] == i {
          nmap[i] := n;
        }
      }
    }
    forall i | 0 <= i < MAX_CHANNELS {
      map_[i] := nmap[i];
    }
  }

  lemma {:induction false} LastWithIs(s: seq<int>, i: int, n: nat, k: nat)
    requires k < n <= |s| && s[k] == i && forall j :: 0 <= j < n && j != k ==> s[j] != i
    ensures LastWith(s, i, n) == k
  {
    if s[n - 1] != i {
      LastWithIs(s, i, n - 1, k);
    }
  }

  /** The two maps have the same speakers, none of them silent. */
  ghost predicate SameSpeakers(from: Map, to: Map) {
    && Valid(from) && Valid(to) && NA !in from && NA !in to && |from| == |to|
    && forall sp :: sp in from <==> sp in to
  }

  /** A reordering of the same speakers, transposed, is its inverse: where GetReorder says from
      which channel each new channel is taken, the result says to which one each old channel goes. */
  lemma TransposedIsInverse(from: Map, to: Map, order: seq<int>, i: nat)
    requires SameSpeakers(from, to) && |from| <= |order|
    requires forall n :: 0 <= n < |to| ==> order[n] == Reorder(from, to, n)
    requires i < |from|
    ensures var k := LastWith(order, i, |from|);
      k < |to| && order[k] == i && to[k] == from[i]
  {
    assert from[0] in from && to[0] in to;
    assert from[i] in from;
    var k :| 0 <= k < |to| && to[k] == from[i];
    forall n | 0 <= n < |to| ensures order[n] == i <==> n == k {
      assert order[n] == IndexOf(from, to[n]);
      assert to[n] in to;
      if order[n] == i {
        assert to[n] == to[k];
      }
    }
    LastWithIs(order, i, |from|, k);
  }

  lemma TransposedTwice(from: Map, to: Map, order: seq<int>, n: nat)
    requires SameSpeakers(from, to) && |from| <= |order|
    requires forall n :: 0 <= n < |to| ==> order[n] == Reorder(from, to, n)
    requires n < |to|
    ensures 0 <= order[n] < |from| && LastWith(order, order[n], |from|) == n
  {
    assert from[0] in from && to[0] in to;
    assert to[n] in to;
    var i := order[n];
    assert i == IndexOf(from, to[n]) && from[i] == to[n];
    TransposedIsInverse(from, to, order, i);
    var k := LastWith(order, i, |from|);
    assert to[k] == to[n];
  }
}
