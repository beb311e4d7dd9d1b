/** Choosing a supported channel map for a requested one (audio/chmap_sel.c): the pairwise decision
    between two candidates, and the fallback chosen from a list with it. */
module ChannelSelect {
  import opened ChannelMap

  /** Pairs of speakers that may stand in for each other. */
  datatype Replacement = Replacement(left: Map, right: Map)

  const SIDE_FOR_BACK := Replacement([SL, SR], [BL, BR])
  const SIDE_FOR_DIRECT := Replacement([SL, SR], [SDL, SDR])

  datatype Option = None | Some(value: Map)

  // ---------- replacing speakers ----------

  function Substitute(sp: nat, from: Map, to: Map): nat
    requires |from| == |to|
  {
    if IndexOf(from, sp) >= 0 then to[IndexOf(from, sp)] else sp
  }

  function Substituted(m: Map, from: Map, to: Map): (t: Map)
    requires |from| == |to|
    ensures |t| == |m|
  {
    seq(|m|, n requires 0 <= n < |m| => Substitute(m[n], from, to))
  }

  predicate Mentions(m: Map, from: Map) {
    exists n :: 0 <= n < |m| && m[n] in from
  }

  function OneWay(m: Map, from: Map, to: Map): Option
    requires |from| == |to|
  {
    if Mentions(m, from) && Valid(Substituted(m, from, to)) then Some(Substituted(m, from, to)) else None
  }

  /** The map with speakers replaced, right to left if possible, else left to right. */
  function Replaced(m: Map, r: Replacement): Option
    requires |r.left| == |r.right|
  {
    if !Valid(m) then None
    else if OneWay(m, r.right, r.left).Some? then OneWay(m, r.right, r.left)
    else OneWay(m, r.left, r.right)
  }

  method ReplaceOneWay(m: Map, from: Map, to: Map) returns (r: Option)
    requires |from| == |to|
    ensures r == OneWay(m, from, to)
  {
    var t, replaced := m, false;
    for n := 0 to |m|
      invariant |t| == |m| && (replaced <==> exists k :: 0 <= k < n && m[k] in from)
      invariant forall k :: 0 <= k < n ==> t[k] == Substitute(m[k], from, to)
      invariant forall k :: n <= k < |m| ==> t[k] == m[k]
    {
      var i := FindSpeaker(from, m[n]);
      if i >= 0 {
        t, replaced := t[n := to[i]], true;
      }
    }
    assert t == Substituted(m, from, to);
    var valid := IsValid(t);
    r := if replaced && valid then Some(t) else None;
  }

  method ReplaceSpeakers(m: Map, list: Replacement) returns (r: Option)
    requires |list.left| == |list.right|
    ensures r == Replaced(m, list)
  {
    var valid := IsValid(m);
    if !valid {
      return None;
    }
    r := ReplaceOneWay(m, list.right, list.left);
    if r.None? {
      r := ReplaceOneWay(m, list.left, list.right);
    }
  }

  // ---------- how much is lost ----------

  function DiffOf(o: Option, b: Map, otherwise: nat): nat {
    if o.Some? && Diff(o.value, b) < otherwise then Diff(o.value, b) else otherwise
  }

  /** Channels only in `a`, when speakers may be replaced; stereo is as good as mono. */
  function DiffReplaced(a: Map, b: Map): nat {
    if b == MONO && a == STEREO then 0
    else DiffOf(Replaced(a, SIDE_FOR_DIRECT), b, DiffOf(Replaced(a, SIDE_FOR_BACK), b, Diff(a, b)))
  }

  method ComputeDiff(a: Map, b: Map) returns (d: nat)
    ensures d == Diff(a, b)
  {
    var maskA := ToMask(a);
    var maskB := ToMask(b);
    d := |maskA - maskB|;
  }

  method ComputeDiffReplaced(a: Map, b: Map) returns (d: nat)
    ensures d == DiffReplaced(a, b)
  {
    var replacements := [SIDE_FOR_BACK, SIDE_FOR_DIRECT];
    d := ComputeDiff(a, b);
    ghost var first := d;
    for i := 0 to 2
      invariant d == if i == 0 then first else if i == 1 then DiffOf(Replaced(a, SIDE_FOR_BACK), b, first)
                     else DiffOf(Replaced(a, SIDE_FOR_DIRECT), b, DiffOf(Replaced(a, SIDE_FOR_BACK), b, first))
    {
      var r := ReplaceSpeakers(a, replacements[i]);
      if r.Some? {
        var e := ComputeDiff(r.value, b);
        if e < d {
          d := e;
        }
      }
    }
    if b == MONO && a == STEREO {
      d := 0;
    }
  }

  // ---------- what may stand in for what ----------

  /** `t` is `m` with one pair of speakers driving another pair's channels, both ways of which are maps. */
  predicate StandsIn(m: Map, t: Map, from: Map, to: Map) {
    && |from| == |to| == 2 && from[0] != from[1] && |t| == |m| && Valid(m) && Valid(t) && Mentions(m, from)
    && forall n :: 0 <= n < |m| ==>
         t[n] == if m[n] == from[0] then to[0] else if m[n] == from[1] then to[1] else m[n]
  }

  lemma IndexInPair(pair: Map, sp: nat)
    requires |pair| == 2 && pair[0] != pair[1]
    ensures IndexOf(pair, sp) == if sp == pair[0] then 0 else if sp == pair[1] then 1 else -1
  {
    assert pair == [pair[0], pair[1]];
  }

  lemma StandInIsReplaced(m: Map, t: Map, from: Map, to: Map)
    requires StandsIn(m, t, from, to)
    ensures OneWay(m, from, to) == Some(t)
  {
    forall n | 0 <= n < |m| ensures Substitute(m[n], from, to) == t[n] {
      IndexInPair(from, m[n]);
    }
    assert Substituted(m, from, to) == t;
  }

  /** Replacing makes maps of maps only: no speaker is driven twice. */
  lemma ReplacedIsMap(m: Map, r: Replacement, t: Map)
    requires |r.left| == |r.right| && Replaced(m, r) == Some(t)
    ensures Valid(m) && Valid(t) && |t| == |m| && (Mentions(m, r.left) || Mentions(m, r.right))
  {
  }

  lemma NothingLost(m: Map)
    ensures Diff(m, m) == 0
  {
    assert MaskOf(m) - MaskOf(m) == {};
  }

  /** Back speakers stand in for side ones in a map that has no back ones itself, and the other way
      round; and so do direct ones: nothing counts as lost then. */
  lemma StandInsLoseNothing(m: Map, t: Map)
    requires StandsIn(m, t, [BL, BR], [SL, SR]) || StandsIn(m, t, [SDL, SDR], [SL, SR])
             || (StandsIn(m, t, [SL, SR], [BL, BR]) && !Mentions(m, [BL, BR]))
             || (StandsIn(m, t, [SL, SR], [SDL, SDR]) && !Mentions(m, [SDL, SDR]))
    ensures DiffReplaced(m, t) == 0
  {
    hide Diff, Mentions, Valid, Substituted;
    NothingLost(t);
    if StandsIn(m, t, [BL, BR], [SL, SR]) {
      StandInIsReplaced(m, t, [BL, BR], [SL, SR]);
    } else if StandsIn(m, t, [SDL, SDR], [SL, SR]) {
      StandInIsReplaced(m, t, [SDL, SDR], [SL, SR]);
    } else if StandsIn(m, t, [SL, SR], [BL, BR]) && !Mentions(m, [BL, BR]) {
      StandInIsReplaced(m, t, [SL, SR], [BL, BR]);
    } else {
      StandInIsReplaced(m, t, [SL, SR], [SDL, SDR]);
    }
  }

  /** Replacing never makes it worse: what is lost is at most what the maps as they are differ by. */
  lemma ReplacingNeverLosesMore(a: Map, b: Map)
    ensures DiffReplaced(a, b) <= Diff(a, b)
    ensures DiffReplaced(a, b) < Diff(a, b) ==>
      || (a == STEREO && b == MONO)
      || exists t :: (Replaced(a, SIDE_FOR_BACK) == Some(t) || Replaced(a, SIDE_FOR_DIRECT) == Some(t))
                     && DiffReplaced(a, b) == Diff(t, b)
  {
    hide Replaced, Diff;
    if !(a == STEREO && b == MONO) {
      var first, second := Replaced(a, SIDE_FOR_BACK), Replaced(a, SIDE_FOR_DIRECT);
      assert first.Some? ==> Replaced(a, SIDE_FOR_BACK) == Some(first.value);
      assert second.Some? ==> Replaced(a, SIDE_FOR_DIRECT) == Some(second.value);
    }
  }

  /** MONO, possibly with silent channels, is best played as stereo, in either order. */
  predicate PreferredRemix(src: Map, dst: Map) {
    EqualReordered(WithoutNa(src), MONO) && EqualReordered(WithoutNa(dst), STEREO)
  }

  method TestPreferredRemix(src: Map, dst: Map) returns (preferred: bool)
    ensures preferred == PreferredRemix(src, dst)
  {
    var s := RemoveNa(src);
    var d := RemoveNa(dst);
    preferred := Sorted(s) == Sorted(MONO) && Sorted(d) == Sorted(STEREO);
  }

  /** For a valid map that just means: the center and nothing else, to left and right. */
  lemma PreferredRemixIs(src: Map, dst: Map)
    ensures PreferredRemix(src, dst) <==>
      multiset(WithoutNa(src)) == multiset{FC} && multiset(WithoutNa(dst)) == multiset{FL, FR}
  {
    EqualReorderedIs(WithoutNa(src), MONO);
    EqualReorderedIs(WithoutNa(dst), STEREO);
    assert multiset(MONO) == multiset{FC} && multiset(STEREO) == multiset{FL, FR};
  }

  // ---------- the decision ----------

  /** What a candidate is ranked by, most important first. */
  datatype Key = Key(inexact: nat, notPreferred: nat, lostReplaced: nat, excess: nat, lost: nat,
                     speakers: nat, channels: nat)

  function KeyOf(req: Map, m: Map): Key {
    Key(if m == req then 0 else 1,
        if PreferredRemix(req, m) then 0 else 1,
        DiffReplaced(req, m),
        if DiffReplaced(req, m) == 0 then |WithoutNa(m)| else 0,
        Diff(req, m),
        |WithoutNa(m)|,
        |m|)
  }

  predicate Less(a: Key, b: Key) {
    if a.inexact != b.inexact then a.inexact < b.inexact
    else if a.notPreferred != b.notPreferred then a.notPreferred < b.notPreferred
    else if a.lostReplaced != b.lostReplaced then a.lostReplaced < b.lostReplaced
    else if a.excess != b.excess then a.excess < b.excess
    else if a.lost != b.lost then a.lost < b.lost
    else if a.speakers != b.speakers then a.speakers < b.speakers
    else a.channels < b.channels
  }

  /** A request that is met exactly comes first; then one in stereo for one in mono; and otherwise a
      map that loses fewer speakers, even after replacing, is never ranked behind. Among those that
      lose none so, fewer speakers are better; among others, to lose fewer without replacing, then fewer
      speakers, and at last fewer channels. */
  lemma LosingLessIsBetter(req: Map, a: Map, b: Map)
    ensures a == req && b != req ==> Less(KeyOf(req, a), KeyOf(req, b))
    ensures a != req && b != req && PreferredRemix(req, a) && !PreferredRemix(req, b) ==>
      Less(KeyOf(req, a), KeyOf(req, b))
    ensures a != req && b != req && PreferredRemix(req, a) == PreferredRemix(req, b) ==>
      && (DiffReplaced(req, a) < DiffReplaced(req, b) ==> Less(KeyOf(req, a), KeyOf(req, b)))
      && (DiffReplaced(req, a) == DiffReplaced(req, b) == 0 && |WithoutNa(a)| < |WithoutNa(b)| ==>
            Less(KeyOf(req, a), KeyOf(req, b)))
      && (DiffReplaced(req, a) == DiffReplaced(req, b) > 0 && Diff(req, a) < Diff(req, b) ==>
            Less(KeyOf(req, a), KeyOf(req, b)))
      && (DiffReplaced(req, a) == DiffReplaced(req, b) && Diff(req, a) == Diff(req, b) ==>
            && (|WithoutNa(a)| < |WithoutNa(b)| ==> Less(KeyOf(req, a), KeyOf(req, b)))
            && (|WithoutNa(a)| == |WithoutNa(b)| && |a| < |b| ==> Less(KeyOf(req, a), KeyOf(req, b))))
  {
    hide PreferredRemix, DiffReplaced, Diff, WithoutNa;
  }

  /** The ranking is a strict weak order. */
  lemma LessIsOrder(a: Key, b: Key, c: Key)
    ensures !Less(a, a) && (Less(a, b) ==> !Less(b, a))
    ensures Less(a, b) && !Less(c, b) ==> Less(a, c)
    ensures Less(a, b) || Less(b, a) || a == b
  {
  }

  /** mp_chmap_is_better, decision by decision, is comparison by rank. */
  method IsBetter(req: Map, old_: Map, new_: Map) returns (better: bool)
    ensures better == (old_ == [] || Less(KeyOf(req, new_), KeyOf(req, old_)))
  {
    hide PreferredRemix, DiffReplaced, Diff, WithoutNa;
    if |old_| == 0 {
      return true;
    }
    if req == old_ {
      return false;
    }
    if req == new_ {
      return true;
    }
    var oldPref := TestPreferredRemix(req, old_);
    var newPref := TestPreferredRemix(req, new_);
    if oldPref && !newPref {
      return false;
    }
    if !oldPref && newPref {
      return true;
    }
    var oldLostR := ComputeDiffReplaced(req, old_);
    var newLostR := ComputeDiffReplaced(req, new_);
    if newLostR != oldLostR {
      return newLostR < oldLostR;
    }
    var oldP := RemoveNa(old_);
    var newP := RemoveNa(new_);
    var perfectRNew := newLostR == 0 && |newP| <= |oldP|;
    var perfectROld := oldLostR == 0 && |oldP| <= |newP|;
    if perfectRNew != perfectROld {
      return perfectRNew;
    }
    var oldLost := ComputeDiff(req, old_);
    var newLost := ComputeDiff(req, new_);
    if newLost != oldLost {
      return newLost < oldLost;
    }
    if |newP| != |oldP| {
      return |newP| < |oldP|;
    }
    return |new_| < |old_|;
  }

  /** Candidate `k` is the first of the best-ranked ones among the first `n`, unknown maps aside. */
  predicate BestAmong(req: Map, maps: seq<Map>, n: nat, k: int)
    requires n <= |maps|
  {
    && 0 <= k < n && !Unknown(maps[k])
    && forall j :: 0 <= j < n && !Unknown(maps[j]) ==>
         !Less(KeyOf(req, maps[j]), KeyOf(req, maps[k])) && (j < k ==> Less(KeyOf(req, maps[k]), KeyOf(req, maps[j])))
  }

  lemma {:induction false} BestStays(req: Map, maps: seq<Map>, n: nat, k: int)
    requires n < |maps| && BestAmong(req, maps, n, k) && !Less(KeyOf(req, maps[n]), KeyOf(req, maps[k]))
    ensures BestAmong(req, maps, n + 1, k)
  {
    hide KeyOf;
  }

  lemma {:induction false} BestChanges(req: Map, maps: seq<Map>, n: nat, k: int)
    requires n < |maps| && !Unknown(maps[n])
    requires if k == -1 then forall j :: 0 <= j < n ==> Unknown(maps[j])
             else BestAmong(req, maps, n, k) && Less(KeyOf(req, maps[n]), KeyOf(req, maps[k]))
    ensures BestAmong(req, maps, n + 1, n)
  {
    hide KeyOf, Less, Unknown;
    forall j | 0 <= j <= n && !Unknown(maps[j])
      ensures !Less(KeyOf(req, maps[j]), KeyOf(req, maps[n]))
      ensures j < n ==> Less(KeyOf(req, maps[n]), KeyOf(req, maps[j]))
    {
      LessIsOrder(KeyOf(req, maps[n]), KeyOf(req, maps[n]), KeyOf(req, maps[n]));
      if j < n {
        if k != -1 {
          LessIsOrder(KeyOf(req, maps[n]), KeyOf(req, maps[k]), KeyOf(req, maps[j]));
        }
        LessIsOrder(KeyOf(req, maps[n]), KeyOf(req, maps[j]), KeyOf(req, maps[n]));
      }
    }
  }

  /** The fallback for `req` from a list of valid maps: the first of those ranked best, and the
      request itself if it is listed. */
  method Fallback(maps: seq<Map>, req: Map) returns (ok: bool, r: Map, ghost k: int)
    requires forall j :: 0 <= j < |maps| ==> Valid(maps[j])
    ensures !ok ==> r == req && forall j :: 0 <= j < |maps| ==> Unknown(maps[j])
    ensures ok ==> BestAmong(req, maps, |maps|, k) && r == maps[k]
    ensures req in maps && !Unknown(req) ==> ok && r == req
  {
    hide KeyOf, Less, BestAmong, Unknown;
    var best := [];
    k := -1;
    for n := 0 to |maps|
      invariant if k == -1 then best == [] && forall j :: 0 <= j < n ==> Unknown(maps[j])
                else BestAmong(req, maps, n, k) && 0 <= k < n && best == maps[k]
    {
      var e := maps[n];
      var unknown := IsUnknown(e);
      if unknown {
        if k != -1 {
          BestSkips(req, maps, n, k);
        }
        continue;
      }
      var better := IsBetter(req, best, e);
      if better {
        BestChanges(req, maps, n, k);
        best, k := e, n;
      } else {
        BestStays(req, maps, n, k);
      }
    }
    ok := |best| > 0;
    r := if ok then best else req;
    if req in maps && !Unknown(req) {
      var j :| 0 <= j < |maps| && maps[j] == req;
      ExactWins(req, maps, k, j);
    }
  }

  lemma BestSkips(req: Map, maps: seq<Map>, n: nat, k: int)
    requires n < |maps| && BestAmong(req, maps, n, k) && Unknown(maps[n])
    ensures BestAmong(req, maps, n + 1, k)
  {
    hide KeyOf, Less;
  }

  /** Nothing is ranked above the request itself. */
  lemma ExactWins(req: Map, maps: seq<Map>, k: int, j: nat)
    requires j < |maps| && maps[j] == req && !Unknown(req)
    requires if k == -1 then forall i :: 0 <= i < |maps| ==> Unknown(maps[i]) else BestAmong(req, maps, |maps|, k)
    ensures 0 <= k < |maps| && maps[k] == req
  {
    hide PreferredRemix, DiffReplaced, Diff, WithoutNa;
  }
}
