/** The Matroska seek index: adding blocks to it, and choosing where to seek (seek_with_cues). */
module CueSeek {

  const INT64_MAX: int := 0x7FFF_FFFF_FFFF_FFFF

  /** One indexed block; `filepos` is the position of the cluster it is in. */
  datatype Entry = Entry(track: nat, timecode: int, duration: int, filepos: nat)

  // ---------- building the index ----------

  /** Entries of one track are in the order of strictly increasing time. */
  predicate Rising(es: seq<Entry>) {
    forall i, j :: 0 <= i < j < |es| && es[i].track == es[j].track ==> es[i].timecode < es[j].timecode
  }

  /** For every track with entries, `last` says which one was added last. */
  predicate Tracked(es: seq<Entry>, last: map<nat, nat>) {
    && (forall t :: t in last ==> last[t] < |es| && es[last[t]].track == t)
    && (forall i :: 0 <= i < |es| ==> es[i].track in last && i <= last[es[i].track])
  }

  /** A block newer than everything indexed of its track. */
  predicate IsNew(es: seq<Entry>, track: nat, timecode: int) {
    forall i :: 0 <= i < |es| && es[i].track == track ==> es[i].timecode < timecode
  }

  /** The entry added last is the newest of its track. */
  lemma LastIsNewest(es: seq<Entry>, last: map<nat, nat>, track: nat, timecode: int)
    requires Rising(es) && Tracked(es, last)
    ensures track in last ==> (IsNew(es, track, timecode) <==> es[last[track]].timecode < timecode)
    ensures track !in last ==> IsNew(es, track, timecode)
  {
  }

  lemma AddKeeps(es: seq<Entry>, last: map<nat, nat>, e: Entry)
    requires Rising(es) && Tracked(es, last) && IsNew(es, e.track, e.timecode)
    ensures Rising(es + [e]) && Tracked(es + [e], last[e.track := |es|])
  {
  }

  class CueIndex {
    var entries: seq<Entry>
    var last: map<nat, nat>     // for each track with entries: which one was added last
    var hasDurations: bool
    const complete: bool        // the file has an index of its own; blocks are not added

    ghost predicate Valid()
      reads this
    {
      !complete ==> Rising(entries) && Tracked(entries, last)
    }

    constructor (cues: seq<Entry>, complete: bool)
      requires !complete ==> cues == []
      ensures Valid() && entries == cues && this.complete == complete
    {
      entries, last, hasDurations, this.complete := cues, map[], false, complete;
    }

    /** Adds a block unless the index already covers it. */
    method AddBlockPosition(track: nat, filepos: nat, timecode: int, duration: int)
      requires Valid()
      modifies this
      ensures Valid()
      ensures complete ==> entries == old(entries) && hasDurations == old(hasDurations)
      ensures !complete ==>
        && hasDurations
        && entries == if IsNew(old(entries), track, timecode)
                      then old(entries) + [Entry(track, timecode, duration, filepos)] else old(entries)
    {
      hide Rising, Tracked, IsNew;
      if complete {
        return;
      }
      hasDurations := true;
      LastIsNewest(entries, last, track, timecode);
      TrackedLast(entries, last, track);
      if track in last {
        if entries[last[track]].timecode >= timecode {
          return;
        }
      }
      AddKeeps(entries, last, Entry(track, timecode, duration, filepos));
      entries := entries + [Entry(track, timecode, duration, filepos)];
      last := last[track := |entries| - 1];
    }
  }

  lemma TrackedLast(es: seq<Entry>, last: map<nat, nat>, track: nat)
    requires Tracked(es, last)
    ensures track in last ==> last[track] < |es|
  {
  }

  // ---------- choosing an entry ----------

  datatype SeekFlags = SeekFlags(forward: bool, hr: bool)

  predicate Candidate(e: Entry, id: int) {
    id < 0 || e.track == id
  }

  function Diff(e: Entry, target: int, scale: nat, forward: bool): int {
    if forward then target - e.timecode * scale else e.timecode * scale - target
  }

  /** Not past the target is better than past it; then nearer is better. */
  predicate Better(d: int, than: int) {
    if d <= 0 then than > 0 || d > than else than > 0 && d < than
  }

  /** Entry `k` is the first of the best candidates among the first `n`. */
  predicate BestAmong(es: seq<Entry>, n: nat, id: int, target: int, scale: nat, forward: bool, k: int)
    requires n <= |es|
  {
    && 0 <= k < n && Candidate(es[k], id)
    && forall j :: 0 <= j < n && Candidate(es[j], id) ==>
         && !Better(Diff(es[j], target, scale, forward), Diff(es[k], target, scale, forward))
         && (j < k ==> Better(Diff(es[k], target, scale, forward), Diff(es[j], target, scale, forward)))
  }

  method FindIndexEntry(es: seq<Entry>, id: int, target: int, scale: nat, forward: bool) returns (index: int)
    ensures index == -1 ==> forall j :: 0 <= j < |es| ==> !Candidate(es[j], id)
    ensures index != -1 ==> BestAmong(es, |es|, id, target, scale, forward, index)
  {
    index := -1;
    var minDiff := 0;
    for i := 0 to |es|
      invariant index == -1 ==> forall j :: 0 <= j < i ==> !Candidate(es[j], id)
      invariant index != -1 ==> BestAmong(es, i, id, target, scale, forward, index)
                                && minDiff == Diff(es[index], target, scale, forward)
    {
      if id < 0 || es[i].track == id {
        var diff := es[i].timecode * scale - target;
        if forward {
          diff := -diff;
        }
        if index != -1 {
          if diff <= 0 {
            if minDiff <= 0 && diff <= minDiff {
              continue;
            }
          } else if diff >= minDiff {
            continue;
          }
        }
        minDiff, index := diff, i;
      }
    }
  }

  lemma ScaledBelow(a: int, b: int, scale: nat)
    requires scale > 0 && a < b
    ensures a * scale < b * scale
  {
    assert b * scale == a * scale + (b - a) * scale;
  }

  lemma ScaledOrder(a: int, b: int, scale: nat)
    requires scale > 0
    ensures a <= b <==> a * scale <= b * scale
  {
    if a < b {
      ScaledBelow(a, b, scale);
    } else if a > b {
      ScaledBelow(b, a, scale);
    }
  }

  /** On an index in any order, a backward seek picks the greatest timecode at or before the target,
      and if there is none the smallest one after it. */
  lemma BackwardIsOptimal(es: seq<Entry>, id: int, target: int, scale: nat, k: nat, j: nat)
    requires scale > 0 && BestAmong(es, |es|, id, target, scale, false, k)
    requires j < |es| && Candidate(es[j], id)
    ensures es[j].timecode * scale <= target ==>
      es[k].timecode * scale <= target && es[j].timecode <= es[k].timecode
    ensures es[k].timecode * scale > target ==>
      es[j].timecode * scale > target && es[k].timecode <= es[j].timecode
  {
    ScaledOrder(es[j].timecode, es[k].timecode, scale);
    ScaledOrder(es[k].timecode, es[j].timecode, scale);
    assert !Better(Diff(es[j], target, scale, false), Diff(es[k], target, scale, false));
  }

  /** And a forward seek the smallest one at or after it, or else the greatest one before it. */
  lemma ForwardIsOptimal(es: seq<Entry>, id: int, target: int, scale: nat, k: nat, j: nat)
    requires scale > 0 && BestAmong(es, |es|, id, target, scale, true, k)
    requires j < |es| && Candidate(es[j], id)
    ensures es[j].timecode * scale >= target ==>
      es[k].timecode * scale >= target && es[k].timecode <= es[j].timecode
    ensures es[k].timecode * scale < target ==>
      es[j].timecode * scale < target && es[j].timecode <= es[k].timecode
  {
    ScaledOrder(es[j].timecode, es[k].timecode, scale);
    ScaledOrder(es[k].timecode, es[j].timecode, scale);
    assert !Better(Diff(es[j], target, scale, true), Diff(es[k], target, scale, true));
  }

  // ---------- exact seeks: going back for subtitles ----------

  /** The time before which nothing needs to be demuxed for an exact seek. */
  function MinTimecode(entry: Entry, pre: nat): int {
    if pre < entry.timecode then entry.timecode - pre else 0
  }

  /** `p` is the position of the last of the latest candidates at or before `minTc` (and at or after
      time 0) among the first `n`, or 0. */
  ghost predicate PreviousAmong(es: seq<Entry>, n: nat, id: int, minTc: int, p: nat, tc: int)
    requires n <= |es|
  {
    && tc >= 0
    && (forall j :: 0 <= j < n && Candidate(es[j], id) && 0 <= es[j].timecode <= minTc ==> es[j].timecode <= tc)
    && ((p == 0 && tc == 0 && forall j :: 0 <= j < n && Candidate(es[j], id) ==> !(0 <= es[j].timecode <= minTc))
        || exists k :: LastOfLatest(es, n, id, minTc, p, tc, k))
  }

  predicate LastOfLatest(es: seq<Entry>, n: nat, id: int, minTc: int, p: nat, tc: int, k: int)
    requires n <= |es|
  {
    && 0 <= k < n && Candidate(es[k], id) && es[k].timecode == tc <= minTc && es[k].filepos == p
    && forall j :: k < j < n && Candidate(es[j], id) ==> es[j].timecode != tc
  }

  ghost predicate IsPrevious(es: seq<Entry>, id: int, minTc: int, p: nat) {
    exists tc :: PreviousAmong(es, |es|, id, minTc, p, tc)
  }

  method FindPrevious(es: seq<Entry>, id: int, minTc: int) returns (prev: nat)
    ensures IsPrevious(es, id, minTc, prev)
  {
    prev := 0;
    var prevTc := 0;
    ghost var k := -1;
    for i := 0 to |es|
      invariant prevTc >= 0
      invariant forall j :: 0 <= j < i && Candidate(es[j], id) && 0 <= es[j].timecode <= minTc ==>
        es[j].timecode <= prevTc
      invariant if k == -1
                then prev == 0 && prevTc == 0
                     && forall j :: 0 <= j < i && Candidate(es[j], id) ==> !(0 <= es[j].timecode <= minTc)
                else LastOfLatest(es, i, id, minTc, prev, prevTc, k)
    {
      if id < 0 || es[i].track == id {
        if es[i].timecode <= minTc && es[i].timecode >= prevTc {
          prevTc, prev, k := es[i].timecode, es[i].filepos, i;
        }
      }
    }
    assert k != -1 ==> LastOfLatest(es, |es|, id, minTc, prev, prevTc, k);
    assert PreviousAmong(es, |es|, id, minTc, prev, prevTc);
  }

  /** The block is shown when the block of `index` is, and is not before `from` in the file. */
  predicate Overlaps(e: Entry, index: Entry, from: nat) {
    e.timecode <= index.timecode < e.timecode + e.duration && e.filepos >= from
  }

  /** `t` is the first position in the file, up to that of `index`, of a block overlapping it. */
  predicate EarliestAmong(es: seq<Entry>, n: nat, index: Entry, from: nat, t: nat)
    requires n <= |es|
  {
    && t <= index.filepos
    && (forall j :: 0 <= j < n && Overlaps(es[j], index, from) ==> t <= es[j].filepos)
    && (t == index.filepos || exists k :: 0 <= k < n && Overlaps(es[k], index, from) && es[k].filepos == t)
  }

  method FindEarliest(es: seq<Entry>, index: Entry, from: nat) returns (t: nat)
    ensures EarliestAmong(es, |es|, index, from, t)
  {
    t := index.filepos;
    for i := 0 to |es|
      invariant EarliestAmong(es, i, index, from, t)
    {
      var cur := es[i];
      if cur.timecode <= index.timecode && cur.timecode + cur.duration > index.timecode
         && cur.filepos >= from && cur.filepos < t {
        t := cur.filepos;
      }
    }
  }

  function Preroll(secs: real, scale: nat): nat
    requires scale > 0 && secs >= 0.0
  {
    var ticks := (secs * 1000000000.0 / scale as real).Floor;
    if ticks > INT64_MAX then INT64_MAX else ticks
  }

  /** An exact seek goes back just as far as the preroll says: a time before the keyframe is at or after
      the start of the preroll if and only if it is at most that many seconds before the keyframe. */
  lemma PrerollReaches(entry: Entry, secs: real, scale: nat, timecode: nat)
    requires scale > 0 && secs >= 0.0 && timecode <= entry.timecode <= INT64_MAX
    ensures MinTimecode(entry, Preroll(secs, scale)) >= 0
    ensures timecode >= MinTimecode(entry, Preroll(secs, scale)) <==>
      ((entry.timecode - timecode) * scale) as real <= secs * 1000000000.0
  {
    var ns, s := secs * 1000000000.0, scale as real;
    var n := entry.timecode - timecode;
    ScaledReal(n, scale);
    QuotientOrder(n as real, ns, s);
    hide MinTimecode;
    MinIs(entry, Preroll(secs, scale), timecode);
    assert n <= Preroll(secs, scale) <==> n <= (ns / s).Floor;
  }

  lemma ScaledReal(n: int, scale: nat)
    ensures (n * scale) as real == n as real * scale as real
  {
  }

  lemma QuotientOrder(x: real, y: real, s: real)
    requires s > 0.0
    ensures x <= y / s <==> x * s <= y
  {
    assert y / s * s == y;
    if x <= y / s {
      assert x * s <= y / s * s;
    } else {
      assert (x - y / s) * s > 0.0;
    }
  }

  lemma MinIs(entry: Entry, pre: nat, timecode: nat)
    requires timecode <= entry.timecode
    ensures MinTimecode(entry, pre) >= 0
    ensures timecode >= MinTimecode(entry, pre) <==> entry.timecode - timecode <= pre
  {
  }

  /** seek_with_cues: the entry seeked to (or -1) and the position in the file to read from. */
  method SeekWithCues(es: seq<Entry>, hasDurations: bool, id: int, target: int, scale: nat, flags: SeekFlags,
                      preroll: real, prerollIndex: real)
    returns (index: int, pos: nat, ghost prev: nat, ghost first: nat)
    requires scale > 0 && preroll >= 0.0 && prerollIndex >= 0.0
    ensures index == -1 ==> forall j :: 0 <= j < |es| ==> !Candidate(es[j], id)
    ensures index != -1 ==> BestAmong(es, |es|, id, target, scale, flags.forward, index)
    ensures index != -1 && !flags.hr ==> pos == es[index].filepos
    ensures index != -1 && flags.hr ==>
      var secs := if hasDurations && prerollIndex > preroll then prerollIndex else preroll;
      && IsPrevious(es, id, MinTimecode(es[index], Preroll(secs, scale)), prev)
      && (!hasDurations ==> pos == if prev != 0 then prev else es[index].filepos)
      && (hasDurations ==>
            && EarliestAmong(es, |es|, es[index], prev, first)
            && pos == if first != 0 then first else es[index].filepos)
  {
    pos, prev, first := 0, 0, 0;
    index := FindIndexEntry(es, id, target, scale, flags.forward);
    if index != -1 {
      pos := es[index].filepos;
      if flags.hr {
        var secs := preroll;
        if hasDurations {
          secs := if secs > prerollIndex then secs else prerollIndex;
        }
        var minTc := MinTimecode(es[index], Preroll(secs, scale));
        var prevTarget := FindPrevious(es, id, minTc);
        prev := prevTarget;
        if hasDurations {
          prevTarget := FindEarliest(es, es[index], prevTarget);
          first := prevTarget;
        }
        if prevTarget != 0 {
          pos := prevTarget;
        }
      }
    }
  }

  /** The block is on screen at time `tc`. */
  predicate ShownAt(e: Entry, tc: int) {
    e.timecode <= tc < e.timecode + e.duration
  }

  /** Entry `j` is needed at the keyframe `index`, and not in a cluster before the preroll's. */
  predicate Needed(es: seq<Entry>, j: nat, index: Entry, prev: nat)
    requires j < |es|
  {
    ShownAt(es[j], index.timecode) && prev <= es[j].filepos
  }

  /** With durations, an exact seek never starts reading after the cluster it seeks to, and misses
      none of the blocks shown at that time that are not before the preroll - unless one of them
      is in a cluster at position 0, where the source takes the position for a missing one. That
      position belongs to the EBML header, so in a well-formed file nothing is missed. It reads from no
      earlier cluster than that takes. */
  lemma ExactSeekMissesNothing(es: seq<Entry>, index: Entry, prev: nat, t: nat, pos: nat)
    requires EarliestAmong(es, |es|, index, prev, t) && pos == if t != 0 then t else index.filepos
    ensures pos <= index.filepos
    ensures (forall j :: 0 <= j < |es| && Needed(es, j, index, prev) ==> pos <= es[j].filepos)
      <==> index.filepos == 0 || forall j :: 0 <= j < |es| && Needed(es, j, index, prev) ==> es[j].filepos != 0
    ensures (forall j :: 0 <= j < |es| ==> es[j].filepos > 0) ==>
      forall j :: 0 <= j < |es| && Needed(es, j, index, prev) ==> pos <= es[j].filepos
    ensures pos == index.filepos || exists j :: 0 <= j < |es| && Needed(es, j, index, prev) && es[j].filepos == pos
  {
    forall j | 0 <= j < |es| ensures Needed(es, j, index, prev) <==> Overlaps(es[j], index, prev) {
    }
    if t != index.filepos {
      var k :| 0 <= k < |es| && Overlaps(es[k], index, prev) && es[k].filepos == t;
      assert Needed(es, k, index, prev);
    }
  }

  /** The preroll begins in the cluster of an entry that is not after its start, and that no other such
      entry is after; without any such entry there is no preroll. */
  lemma PrevIsLatest(es: seq<Entry>, id: int, minTc: int, p: nat)
    requires IsPrevious(es, id, minTc, p)
    ensures if exists j :: 0 <= j < |es| && Candidate(es[j], id) && 0 <= es[j].timecode <= minTc
            then exists k :: LatestUpTo(es, id, minTc, k) && es[k].filepos == p
            else p == 0
  {
    var tc :| PreviousAmong(es, |es|, id, minTc, p, tc);
    if k :| LastOfLatest(es, |es|, id, minTc, p, tc, k) {
      assert LatestUpTo(es, id, minTc, k);
    }
  }

  predicate LatestUpTo(es: seq<Entry>, id: int, minTc: int, k: int) {
    && 0 <= k < |es| && (id < 0 || es[k].track == id) && 0 <= es[k].timecode <= minTc
    && forall j :: 0 <= j < |es| && (id < 0 || es[j].track == id) && 0 <= es[j].timecode <= minTc ==>
         es[j].timecode <= es[k].timecode && (es[j].timecode == es[k].timecode ==> j <= k)
  }
}
