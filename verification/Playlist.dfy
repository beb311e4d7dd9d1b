/** The playlist: a doubly linked list of entries with a cursor that survives the removal of the
    entry it points to (common/playlist.c). */
module Playlist {

  class Entry {
    var prev: Entry?
    var next: Entry?
    var pl: Playlist?
    var removed: bool
    var reserved: int

    constructor ()
      ensures prev == null && next == null && pl == null && !removed && reserved == 0
    {
      prev, next, pl, removed, reserved := null, null, null, false, 0;
    }

    /** Belongs to no list. */
    predicate Free()
      reads this
    {
      prev == null && next == null && pl == null
    }
  }

  function At(s: seq<Entry>, i: int): Entry? {
    if 0 <= i < |s| then s[i] else null
  }

  ghost predicate Distinct(s: seq<Entry>) {
    forall i, j :: 0 <= i < j < |s| ==> s[i] != s[j]
  }

  function Inserted(s: seq<Entry>, k: nat, e: Entry): seq<Entry>
    requires k <= |s|
  {
    s[..k] + [e] + s[k..]
  }

  function Without(s: seq<Entry>, k: nat): seq<Entry>
    requires k < |s|
  {
    s[..k] + s[k + 1..]
  }

  lemma InsertedAt(s: seq<Entry>, k: nat, e: Entry, i: int)
    requires k <= |s|
    ensures At(Inserted(s, k, e), i) == if i < k then At(s, i) else if i == k then e else At(s, i - 1)
  {
  }

  lemma InsertedIs(s: seq<Entry>, k: nat, e: Entry)
    requires k <= |s| && Distinct(s) && e !in s
    ensures var t := Inserted(s, k, e);
      Distinct(t) && |t| == |s| + 1 && (forall x :: x in t <==> x == e || x in s)
  {
    var t := Inserted(s, k, e);
    forall x ensures x in t <==> x == e || x in s {
      assert s == s[..k] + s[k..];
      assert t[k] == e;
    }
  }

  lemma WithoutAt(s: seq<Entry>, k: nat, i: int)
    requires k < |s|
    ensures At(Without(s, k), i) == if i < k then At(s, i) else At(s, i + 1)
  {
  }

  lemma WithoutIs(s: seq<Entry>, k: nat)
    requires k < |s| && Distinct(s)
    ensures var t := Without(s, k);
      Distinct(t) && |t| == |s| - 1 && (forall x :: x in t <==> x != s[k] && x in s)
  {
    var t := Without(s, k);
    forall x ensures x in t <==> x != s[k] && x in s {
      if x in s && x != s[k] {
        var i :| 0 <= i < |s| && s[i] == x;
        assert t[if i < k then i else i - 1] == x;
      }
    }
  }

  /** Entry `k` taken out and put in front of the one that was at `j`. */
  function Moved(s: seq<Entry>, k: nat, j: nat): seq<Entry>
    requires k < |s| && j <= |s|
  {
    if j == k then s else Inserted(Without(s, k), if j > k then j - 1 else j, s[k])
  }

  /** A move keeps the other entries' order, and leaves the moved one right before its target. */
  lemma MovedIs(s: seq<Entry>, k: nat, j: nat)
    requires k < |s| && j <= |s| && Distinct(s)
    ensures var t, i := Moved(s, k, j), if j > k then j - 1 else j;
      && |t| == |s| && Distinct(t) && (forall x :: x in t <==> x in s)
      && i < |t| && t[i] == s[k] && Without(t, i) == Without(s, k)
      && (j != k ==> At(t, i + 1) == At(s, j))
  {
    if j != k {
      var i := if j > k then j - 1 else j;
      WithoutIs(s, k);
      InsertedIs(Without(s, k), i, s[k]);
      InsertedAt(Without(s, k), i, s[k], i + 1);
      WithoutAt(s, k, i);
      assert Without(Moved(s, k, j), i) == Without(s, k);
      assert s[k] in s;
    }
  }

  lemma TailIsNew(s: seq<Entry>, n: nat)
    requires Distinct(s) && n <= |s|
    ensures forall i :: 0 <= i < n ==> s[i] !in s[n..]
    ensures Distinct(s[n..]) && Distinct(s[..n])
  {
  }

  lemma DropFirst(s: seq<Entry>, n: nat)
    requires n < |s|
    ensures Without(s[n..], 0) == s[n + 1..]
  {
  }

  lemma Differ(s: seq<Entry>, i: int, j: int)
    requires Distinct(s)
    ensures 0 <= i < |s| && 0 <= j < |s| && i != j ==> s[i] != s[j]
  {
  }

  class Playlist {
    var first: Entry?
    var last: Entry?
    var current: Entry?
    var replaced: bool          // the entry `current` pointed to was removed
    ghost var items: seq<Entry>

    /** Entry `i` of `s` is linked to its neighbours there. */
    ghost predicate LinkedAt(s: seq<Entry>, i: int)
      reads s
    {
      0 <= i < |s| ==> Links(s[i], At(s, i - 1), At(s, i + 1))
    }

    ghost predicate Links(e: Entry, prev: Entry?, next: Entry?)
      reads e
    {
      e.prev == prev && e.next == next && e.pl == this
    }

    ghost predicate Valid()
      reads this, items
    {
      && Distinct(items)
      && first == At(items, 0) && last == At(items, |items| - 1)
      && (forall i :: LinkedAt(items, i))
      && (current != null ==> current in items)
    }

    constructor ()
      ensures Valid() && items == [] && current == null && !replaced
    {
      first, last, current, replaced, items := null, null, null, false, [];
    }

    /** The links of entry `i` once `e` is spliced in at position `k` of `s`. */
    ghost predicate InAt(s: seq<Entry>, k: nat, e: Entry, i: int)
      reads s
    {
      0 <= i < |s| ==> Links(s[i], if i == k then e else At(s, i - 1), if i == k - 1 then e else At(s, i + 1))
    }

    ghost predicate SplicedIn(s: seq<Entry>, k: nat, e: Entry)
      reads this, s, e
    {
      && Links(e, At(s, k - 1), At(s, k)) && (forall i :: InAt(s, k, e, i))
      && first == (if k == 0 then e else At(s, 0)) && last == (if k == |s| then e else At(s, |s| - 1))
    }

    lemma SplicedInIsValid(s: seq<Entry>, k: nat, e: Entry)
      requires k <= |s| && Distinct(s) && e !in s && items == Inserted(s, k, e) && SplicedIn(s, k, e)
      requires current != null ==> current in s
      ensures Valid()
    {
      hide Distinct;
      InsertedIs(s, k, e);
      hide Inserted;
      InsertedAt(s, k, e, 0);
      InsertedAt(s, k, e, |s|);
      forall i ensures LinkedAt(items, i) {
        InsertedAt(s, k, e, i - 1);
        InsertedAt(s, k, e, i);
        InsertedAt(s, k, e, i + 1);
        assert InAt(s, k, e, if i < k then i else i - 1);
      }
    }

    /** Puts `add` after `after`, or in front; that is at position `k`. */
    method Insert(after: Entry?, add: Entry, ghost k: nat)
      requires Valid() && add.Free() && add !in items
      requires k <= |items| && after == At(items, k - 1)
      modifies this, items, add
      ensures Valid() && items == Inserted(old(items), k, add)
      ensures current == old(current) && replaced == old(replaced)
      ensures forall e :: e in items ==> e.removed == old(e.removed) && e.reserved == old(e.reserved)
    {
      hide LinkedAt, InAt, Distinct;
      ghost var was := items;
      InsertedIs(was, k, add);
      hide Inserted;
      SpliceIn(after, add, k);
      items := Inserted(was, k, add);
      SplicedInIsValid(was, k, add);
    }

    method SpliceIn(after: Entry?, add: Entry, ghost k: nat)
      requires Valid() && add.Free() && add !in items
      requires k <= |items| && after == At(items, k - 1)
      modifies this`first, this`last, items, add
      ensures SplicedIn(items, k, add)
      ensures add.removed == old(add.removed) && add.reserved == old(add.reserved)
      ensures forall e :: e in items ==> e.removed == old(e.removed) && e.reserved == old(e.reserved)
    {
      hide Distinct;
      assert LinkedAt(items, k - 1);
      add.prev := after;
      if after != null {
        add.next := after.next;
        after.next := add;
      } else {
        add.next := first;
        first := add;
      }
      if add.next != null {
        add.next.prev := add;
      } else {
        last := add;
      }
      add.pl := this;
      forall i ensures InAt(items, k, add, i) {
        assert old(LinkedAt(items, i));
        Differ(items, i, k);
        Differ(items, i, k - 1);
      }
    }

    method Add(add: Entry)
      requires Valid() && add.Free() && add !in items
      modifies this, items, add
      ensures Valid() && items == old(items) + [add]
      ensures current == old(current) && replaced == old(replaced)
      ensures forall e :: e in items ==> e.removed == old(e.removed) && e.reserved == old(e.reserved)
    {
      assert Inserted(items, |items|, add) == items + [add];
      Insert(last, add, |items|);
    }

    /** The links of entry `i` once entry `k` of `s` is spliced out. */
    ghost predicate OutAt(s: seq<Entry>, k: nat, i: int)
      reads s
    {
      0 <= i < |s| && i != k ==>
        Links(s[i], At(s, if i == k + 1 then k - 1 else i - 1), At(s, if i == k - 1 then k + 1 else i + 1))
    }

    ghost predicate SplicedOut(s: seq<Entry>, k: nat)
      requires k < |s|
      reads this, s
    {
      && s[k].Free() && (forall i :: OutAt(s, k, i))
      && first == At(s, if k == 0 then 1 else 0) && last == At(s, if k == |s| - 1 then |s| - 2 else |s| - 1)
    }

    lemma SplicedOutIsValid(s: seq<Entry>, k: nat)
      requires k < |s| && Distinct(s) && items == Without(s, k) && SplicedOut(s, k)
      requires current != null ==> current in s && current != s[k]
      ensures Valid()
    {
      hide Distinct;
      WithoutIs(s, k);
      hide Without;
      WithoutAt(s, k, 0);
      WithoutAt(s, k, |s| - 2);
      forall i ensures LinkedAt(items, i) {
        WithoutAt(s, k, i - 1);
        WithoutAt(s, k, i);
        WithoutAt(s, k, i + 1);
        assert OutAt(s, k, if i < k then i else i + 1);
      }
    }

    /** Takes the entry at position `k` off the list; the cursor moves on if it was there. */
    method Unlink(entry: Entry, ghost k: nat)
      requires Valid() && k < |items| && items[k] == entry
      modifies this, items
      ensures Valid() && items == Without(old(items), k) && entry.Free()
      ensures current == (if old(current) == entry then At(old(items), k + 1) else old(current))
      ensures replaced == (old(replaced) || old(current) == entry)
      ensures forall e :: e in old(items) ==> e.removed == old(e.removed) && e.reserved == old(e.reserved)
    {
      hide Distinct, OutAt, Without;
      ghost var was := items;
      assert LinkedAt(was, k);
      Differ(was, k, k + 1);
      hide LinkedAt;
      if current == entry {
        current, replaced := entry.next, true;
      }
      SpliceOut(entry, k);
      items := Without(was, k);
      SplicedOutIsValid(was, k);
    }

    method SpliceOut(entry: Entry, ghost k: nat)
      requires Distinct(items) && k < |items| && items[k] == entry
      requires first == At(items, 0) && last == At(items, |items| - 1)
      requires forall i :: LinkedAt(items, i)
      modifies this`first, this`last, items
      ensures SplicedOut(items, k)
      ensures forall e :: e in items ==> e.removed == old(e.removed) && e.reserved == old(e.reserved)
    {
      hide Distinct;
      assert LinkedAt(items, k);
      if entry.next != null {
        entry.next.prev := entry.prev;
      } else {
        last := entry.prev;
      }
      Differ(items, k, k + 1);
      Differ(items, k, k - 1);
      if entry.prev != null {
        entry.prev.next := entry.next;
      } else {
        first := entry.next;
      }
      entry.next, entry.prev := null, null;
      entry.pl := null;
      forall i ensures OutAt(items, k, i) {
        assert old(LinkedAt(items, i));
        Differ(items, i, k);
        Differ(items, i, k - 1);
        Differ(items, i, k + 1);
      }
    }

    /** Removes an entry for good, unless somebody holds a reference to it. */
    method Remove(entry: Entry, ghost k: nat)
      requires Valid() && k < |items| && items[k] == entry
      modifies this, items
      ensures Valid() && items == Without(old(items), k) && entry.Free()
      ensures current == (if old(current) == entry then At(old(items), k + 1) else old(current))
      ensures replaced == (old(replaced) || old(current) == entry)
      ensures entry.removed && entry.reserved == old(entry.reserved) - 1
    {
      WithoutIs(items, k);
      Unlink(entry, k);
      label Unlinked:
      entry.removed := true;
      entry.reserved := entry.reserved - 1;
      StillLinked@Unlinked();
    }

    /** Nothing else of an entry matters to the list. */
    twostate lemma StillLinked()
      requires old(Valid()) && items == old(items)
      requires first == old(first) && last == old(last) && current == old(current)
      requires forall x :: x in items ==> x.prev == old(x.prev) && x.next == old(x.next) && x.pl == old(x.pl)
      ensures Valid()
    {
      forall i ensures LinkedAt(items, i) {
        assert old(LinkedAt(items, i));
      }
    }

    method Clear()
      requires Valid()
      modifies this, items
      ensures Valid() && items == [] && current == null && !replaced
      ensures forall e :: e in old(items) ==> e.Free() && e.removed
    {
      hide Distinct;
      ghost var was := items;
      ghost var n := 0;
      while first != null
        invariant Valid() && n <= |was| && items == was[n..]
        invariant forall i :: 0 <= i < n ==> was[i].Free() && was[i].removed
        decreases |items|
      {
        DropFirst(was, n);
        TailIsNew(was, n);
        Remove(first, 0);
        n := n + 1;
      }
      EmptyWhenNoFirst();
      replaced := false;
    }

    lemma EmptyWhenNoFirst()
      requires Valid()
      ensures (first == null <==> items == []) && (items == [] ==> current == null)
      ensures items != [] ==> first == items[0]
      ensures last == At(items, |items| - 1)
    {
    }

    /** Puts `entry` where `at` is, or at the end; the cursor stays with its entry. */
    method Move(entry: Entry, at: Entry?, ghost k: nat, ghost j: nat)
      requires Valid() && k < |items| && items[k] == entry
      requires j <= |items| && at == At(items, j)
      modifies this, items
      ensures Valid() && items == Moved(old(items), k, j)
      ensures current == old(current) && replaced == old(replaced)
    {
      hide Valid, Distinct, Inserted;
      ghost var was := items;
      ValidIsDistinct();
      CursorIsListed();
      Differ(was, k, j);
      MovedIs(was, k, j);
      if entry == at {
        return;
      }
      var saveCurrent, saveReplaced := current, replaced;
      WithoutIs(was, k);
      Unlink(entry, k);
      ghost var i := if j > k then j - 1 else j;
      EmptyWhenNoFirst();
      WithoutAt(was, k, i);
      var after := last;
      if at != null {
        PrevIs(at, i);
        after := at.prev;
      }
      InsertedIs(items, i, entry);
      Insert(after, entry, i);
      RestoreCursor(saveCurrent, saveReplaced);
    }

    method RestoreCursor(c: Entry?, r: bool)
      requires Valid() && (c != null ==> c in items)
      modifies this`current, this`replaced
      ensures Valid() && current == c && replaced == r
    {
      current, replaced := c, r;
    }

    lemma PrevIs(e: Entry, i: nat)
      requires Valid() && i < |items| && items[i] == e
      ensures e.prev == At(items, i - 1) && e.next == At(items, i + 1)
    {
      assert LinkedAt(items, i);
    }

    // ---------- positions ----------

    /** The position of `e`, or -1. */
    method EntryToIndex(e: Entry?) returns (pos: int)
      requires Valid()
      ensures -1 <= pos < |items|
      ensures pos >= 0 <==> e != null && e in items
      ensures pos >= 0 ==> items[pos] == e
    {
      EmptyWhenNoFirst();
      if e == null {
        return -1;
      }
      var cur := first;
      pos := 0;
      while cur != null && cur != e
        invariant 0 <= pos <= |items| && cur == At(items, pos)
        invariant forall i :: 0 <= i < pos ==> items[i] != e
        decreases |items| - pos
      {
        PrevIs(cur, pos);
        cur := cur.next;
        pos := pos + 1;
      }
      return if cur == e then pos else -1;
    }

    method EntryCount() returns (n: int)
      requires Valid()
      ensures n == |items|
    {
      var i := EntryToIndex(last);
      assert items != [] ==> last == items[|items| - 1] && last in items;
      Differ(items, i, |items| - 1);
      n := i + 1;
    }

    /** The entry at a position, if there is one. */
    method EntryFromIndex(index: int) returns (e: Entry?)
      requires Valid()
      ensures e == At(items, index)
    {
      e := first;
      var n := 0;
      while e != null && n != index
        invariant 0 <= n <= |items| && e == At(items, n) && (index >= 0 ==> n <= index)
        decreases |items| - n
      {
        PrevIs(e, n);
        e := e.next;
        n := n + 1;
      }
    }

    /** The entry to play next or before; a removed entry's successor has not been played yet. */
    method GetNext(direction: int) returns (e: Entry?)
      requires Valid() && (direction == -1 || direction == 1)
      ensures current == null ==> e == null
      ensures forall k :: 0 <= k < |items| && items[k] == current ==>
        e == if direction < 0 then At(items, k - 1) else if replaced then items[k] else At(items, k + 1)
    {
      if current == null {
        return null;
      }
      forall k | 0 <= k < |items| && items[k] == current
        ensures current.prev == At(items, k - 1) && current.next == At(items, k + 1)
      {
        PrevIs(items[k], k);
      }
      if direction < 0 {
        return current.prev;
      }
      return if replaced then current else current.next;
    }

    // ---------- several entries ----------

    /** Where transferred entries go: after the cursor's entry (after the next one, if the cursor's
        was replaced), or at the end. */
    ghost function InsertionPoint(): (k: nat)
      reads this
      ensures k <= |items|
      ensures current == null ==> k == |items|
      ensures current != null && current in items ==>
        || (k > 0 && items[k - 1] == current && (replaced ==> k == |items|))
        || (k > 1 && items[k - 2] == current && replaced)
    {
      if current != null && current in items then
        var i := PositionIn(items, current);
        if !replaced then i + 1 else if i + 1 < |items| then i + 2 else i + 1
      else |items|
    }

    /** `from`'s first `n` entries have been moved into this list at position `k`. */
    ghost predicate HalfMoved(was: seq<Entry>, k: nat, src: seq<Entry>, n: nat, source: Playlist)
      reads this, items, source, source.items
    {
      && k <= |was| && n <= |src| && this != source
      && Valid() && items == was[..k] + src[..n] + was[k..]
      && source.Valid() && source.items == src[n..]
      && (forall e :: e in items ==> e !in source.items)
    }

    /** Takes the first entry of `source` and puts it after `after`. */
    method MoveFirst(after: Entry?, source: Playlist, ghost was: seq<Entry>, ghost k: nat,
                     ghost src: seq<Entry>, ghost n: nat)
      returns (e: Entry)
      requires HalfMoved(was, k, src, n, source) && n < |src| && after == At(items, (k + n) as int - 1)
      modifies this, items, source, source.items
      ensures HalfMoved(was, k, src, n + 1, source) && e == src[n] == At(items, k + n)
      ensures current == old(current) && replaced == old(replaced)
      ensures source.current == if old(source.current) == e then At(old(source.items), 1) else old(source.current)
      ensures source.replaced == (old(source.replaced) || old(source.current) == e)
    {
      hide Valid, Distinct, Without, Inserted;
      source.EmptyWhenNoFirst();
      source.ValidIsDistinct();
      ValidIsDistinct();
      e := source.first;
      assert e in source.items;
      DropFirst(src, n);
      SpliceNext(was, k, src, n);
      WithoutIs(source.items, 0);
      InsertedIs(items, k + n, e);
      InsertedAt(items, k + n, e, k + n);
      label Before:
      source.Unlink(e, 0);
      Unaffected@Before();
      label Between:
      Insert(after, e, k + n);
      source.Unaffected@Between();
    }

    /** Changes to other objects do not matter to the list. */
    twostate lemma Unaffected()
      requires old(Valid()) && unchanged(this)
      requires forall x :: x in items ==> unchanged(x)
      ensures Valid()
    {
      forall i ensures LinkedAt(items, i) {
        assert old(LinkedAt(items, i));
        assert 0 <= i < |items| ==> items[i] in items;
      }
    }

    lemma CursorIsListed()
      requires Valid()
      ensures current != null ==> current in items
    {
    }

    lemma ValidIsDistinct()
      requires Valid()
      ensures Distinct(items)
    {
    }

    lemma Owned()
      requires Valid()
      ensures forall e :: e in items ==> e.pl == this
    {
      forall e | e in items ensures e.pl == this {
        var i :| 0 <= i < |items| && items[i] == e;
        assert LinkedAt(items, i);
      }
    }

    /** The entry to insert behind. */
    method FindInsertionPoint() returns (after: Entry?)
      requires Valid()
      ensures after == At(items, InsertionPoint() - 1)
    {
      after := current;
      if current != null {
        PositionIs(items, current);
        PrevIs(current, PositionIn(items, current));
        if replaced {
          after := current.next;
        }
      }
      if after == null {
        after := last;
      }
    }

    /** Moves all entries of `source` here, in order, behind the cursor's entry. */
    method TransferEntries(source: Playlist)
      requires Valid() && source.Valid() && this != source
      modifies this, items, source, source.items
      ensures Valid() && source.Valid() && source.items == []
      ensures var k := old(InsertionPoint()); items == old(items)[..k] + old(source.items) + old(items)[k..]
      ensures current == old(current) && replaced == old(replaced)
      ensures source.current == null && source.replaced == (old(source.replaced) || old(source.current) != null)
    {
      hide Valid, InsertionPoint, PositionIn;
      ghost var was, src, k := items, source.items, InsertionPoint();
      var addAfter := FindInsertionPoint();
      StartMoving(source, k);
      MoveRest(addAfter, source, was, k, src);
      assert src[..|src|] == src;
    }

    lemma StartMoving(source: Playlist, k: nat)
      requires Valid() && source.Valid() && this != source && k <= |items|
      ensures HalfMoved(items, k, source.items, 0, source)
    {
      NotShared(source);
      hide Valid;
      assert items[..k] + source.items[..0] + items[k..] == items;
    }

    /** The loop: every entry goes behind the one before it. */
    method MoveRest(after: Entry?, source: Playlist, ghost was: seq<Entry>, ghost k: nat, ghost src: seq<Entry>)
      requires HalfMoved(was, k, src, 0, source) && after == At(items, k as int - 1)
      requires items == was && source.items == src
      modifies this, items, source, source.items
      ensures HalfMoved(was, k, src, |src|, source)
      ensures current == old(current) && replaced == old(replaced)
      ensures source.current == null && source.replaced == (old(source.replaced) || old(source.current) != null)
    {
      hide Valid;
      ghost var cur, rep, scur, srep := current, replaced, source.current, source.replaced;
      var addAfter := after;
      ghost var n := 0;
      while source.first != null
        invariant HalfMoved(was, k, src, n, source) && addAfter == At(items, (k + n) as int - 1)
        invariant current == cur && replaced == rep
        invariant (source.current == scur && source.replaced == srep) || (scur != null && source.replaced)
        decreases |src| - n
      {
        source.EmptyWhenNoFirst();
        addAfter := MoveFirst(addAfter, source, was, k, src, n);
        n := n + 1;
      }
      source.EmptyWhenNoFirst();
    }

    lemma NotShared(other: Playlist)
      requires Valid() && other.Valid() && this != other
      ensures forall e :: e in items ==> e !in other.items
    {
      Owned();
      other.Owned();
    }

    /** Shuffles the list by `choices`, what the random numbers come to: of the entries not placed
        yet, which one is next. The cursor stays with its entry. */
    method Shuffle(choices: seq<nat>)
      requires Valid() && Choices(choices, |items|)
      modifies this, items
      ensures Valid() && items == Shuffled(old(items), choices)
      ensures current == old(current) && replaced == old(replaced)
    {
      hide Valid, Distinct;
      ghost var was := items;
      ValidIsDistinct();
      CursorIsListed();
      ShuffledKeeps(was, choices);
      var saveCurrent, saveReplaced := current, replaced;
      var count := EntryCount();
      var arr := new Entry?[count];
      ghost var order := Shuffled(was, choices);
      TakeOut(arr, was);
      ShuffleArray(arr, was, choices);
      assert forall i :: 0 <= i < |order| ==> order[i] in was;
      PutBack(arr, order);
      RestoreCursor(saveCurrent, saveReplaced);
    }

    method TakeOut(arr: array<Entry?>, ghost was: seq<Entry>)
      requires Valid() && items == was && arr.Length == |was|
      modifies this, items, arr
      ensures Valid() && items == []
      ensures (forall i :: 0 <= i < |was| ==> arr[i] == was[i]) && forall e :: e in was ==> e.Free()
    {
      hide Valid, Distinct;
      ValidIsDistinct();
      for n := 0 to arr.Length
        invariant Valid() && items == was[n..]
        invariant forall i :: 0 <= i < n ==> arr[i] == was[i] && was[i].Free()
      {
        EmptyWhenNoFirst();
        ValidIsDistinct();
        DropFirst(was, n);
        TailIsNew(was, n);
        arr[n] := first;
        Unlink(first, 0);
      }
    }

    method PutBack(arr: array<Entry?>, ghost order: seq<Entry>)
      requires Valid() && items == [] && arr.Length == |order| && Distinct(order)
      requires (forall i :: 0 <= i < |order| ==> arr[i] == order[i]) && forall e :: e in order ==> e.Free()
      modifies this, order
      ensures Valid() && items == order
    {
      hide Valid, Distinct;
      for n := 0 to arr.Length
        invariant Valid() && items == order[..n]
        invariant forall i :: n <= i < |order| ==> order[i].Free()
      {
        NotYetPlaced(order, n);
        assert arr[n] == order[n];
        var e: Entry := arr[n];
        Add(e);
        assert order[..n + 1] == order[..n] + [order[n]];
      }
      assert order[..|order|] == order;
    }

    /** Moves all entries of `source` to the end of this list, in order. */
    method AppendEntries(source: Playlist)
      requires Valid() && source.Valid() && this != source
      modifies this, items, source, source.items
      ensures Valid() && source.Valid() && source.items == [] && items == old(items) + old(source.items)
      ensures current == old(current) && replaced == old(replaced)
      ensures source.current == null && source.replaced == (old(source.replaced) || old(source.current) != null)
    {
      hide Valid;
      ghost var was, src, k := items, source.items, |items|;
      NotShared(source);
      assert was[..k] + src[..0] + was[k..] == was;
      ghost var n := 0;
      while source.first != null
        invariant HalfMoved(was, k, src, n, source) && |items| == k + n
        invariant current == old(current) && replaced == old(replaced)
        invariant || (source.current == old(source.current) && source.replaced == old(source.replaced))
                  || (old(source.current) != null && source.replaced)
        decreases |src| - n
      {
        source.EmptyWhenNoFirst();
        EmptyWhenNoFirst();
        var e := MoveFirst(last, source, was, k, src, n);
        n := n + 1;
      }
      source.EmptyWhenNoFirst();
      assert src[..|src|] == src && was[..k] == was && was[k..] == [];
    }
  }

  ghost function PositionIn(s: seq<Entry>, e: Entry): (i: nat)
    requires e in s
    ensures i < |s| && s[i] == e
  {
    if s[0] == e then 0 else 1 + PositionIn(s[1..], e)
  }

  lemma PositionIs(s: seq<Entry>, e: Entry)
    requires e in s && Distinct(s)
    ensures forall i :: 0 <= i < |s| && s[i] == e ==> i == PositionIn(s, e)
  {
  }

  lemma SpliceNext(was: seq<Entry>, k: nat, src: seq<Entry>, n: nat)
    requires k <= |was| && n < |src|
    ensures var s := was[..k] + src[..n] + was[k..];
      |s| == |was| + n && Inserted(s, k + n, src[n]) == was[..k] + src[..n + 1] + was[k..]
  {
    var s := was[..k] + src[..n] + was[k..];
    assert s[..k + n] == was[..k] + src[..n] && s[k + n..] == was[k..];
    assert src[..n + 1] == src[..n] + [src[n]];
  }

  // ---------- shuffling ----------

  /** `choices` picks among what is left at every step. */
  predicate Choices(choices: seq<nat>, n: nat) {
    |choices| + 1 >= n && forall i :: 0 <= i < n - 1 ==> choices[i] < n - i
  }

  function Swapped<T>(s: seq<T>, i: nat, j: nat): (t: seq<T>)
    requires i < |s| && j < |s|
    ensures |t| == |s|
  {
    s[i := s[j]][j := s[i]]
  }

  function Shuffled<T>(s: seq<T>, choices: seq<nat>): (t: seq<T>)
    requires Choices(choices, |s|)
    ensures |t| == |s|
    decreases |s|
  {
    if |s| <= 1 then s
    else
      var t := Swapped(s, 0, choices[0]);
      [t[0]] + Shuffled(t[1..], choices[1..])
  }

  lemma SwappedKeeps<T>(s: seq<T>, i: nat, j: nat)
    requires i < |s| && j < |s|
    ensures multiset(Swapped(s, i, j)) == multiset(s)
  {
  }

  lemma FirstAndRest<T>(s: seq<T>)
    requires s != []
    ensures multiset(s) == multiset{s[0]} + multiset(s[1..])
  {
    assert s == [s[0]] + s[1..];
  }

  /** A shuffle loses and duplicates nothing. */
  lemma {:induction false} ShuffledIsPermutation<T>(s: seq<T>, choices: seq<nat>)
    requires Choices(choices, |s|)
    ensures multiset(Shuffled(s, choices)) == multiset(s)
    decreases |s|
  {
    hide Swapped;
    if |s| > 1 {
      var t := Swapped(s, 0, choices[0]);
      ShuffledIsPermutation(t[1..], choices[1..]);
      SwappedKeeps(s, 0, choices[0]);
      FirstAndRest(t);
      FirstAndRest(Shuffled(s, choices));
      assert Shuffled(s, choices)[1..] == Shuffled(t[1..], choices[1..]);
    }
  }

  lemma RestsMatch<T>(t: seq<T>, order: seq<T>)
    requires t != [] && order != [] && t[0] == order[0] && multiset(t) == multiset(order)
    ensures multiset(t[1..]) == multiset(order[1..])
  {
    FirstAndRest(t);
    FirstAndRest(order);
    assert multiset(t[1..]) == multiset(t) - multiset{t[0]};
    assert multiset(order[1..]) == multiset(order) - multiset{t[0]};
  }

  /** And no order is out of reach. */
  lemma {:induction false} EveryOrderIsPossible<T>(s: seq<T>, order: seq<T>) returns (choices: seq<nat>)
    requires multiset(order) == multiset(s)
    ensures Choices(choices, |s|) && Shuffled(s, choices) == order
    decreases |s|
  {
    assert |s| == |multiset(s)| == |multiset(order)| == |order|;
    if |s| == 0 {
      choices := [];
    } else {
      assert order[0] in multiset(order);
      assert order[0] in s;
      var j: nat :| j < |s| && s[j] == order[0];
      var t := Swapped(s, 0, j);
      assert t[0] == order[0];
      SwappedKeeps(s, 0, j);
      hide Swapped;
      RestsMatch(t, order);
      if |s| == 1 {
        choices := [];
        assert order == [order[0]] && s == [s[0]];
      } else {
        var rest := EveryOrderIsPossible(t[1..], order[1..]);
        hide Shuffled, Choices;
        choices := FirstChoice(s, j, rest);
        assert order == [order[0]] + order[1..];
      }
    }
  }

  lemma FirstChoice<T>(s: seq<T>, j: nat, rest: seq<nat>) returns (choices: seq<nat>)
    requires |s| > 1 && j < |s| && Choices(rest, |s| - 1)
    ensures Choices(choices, |s|)
    ensures var t := Swapped(s, 0, j); Shuffled(s, choices) == [t[0]] + Shuffled(t[1..], rest)
  {
    choices := [j] + rest;
    assert choices[1..] == rest;
  }

  lemma {:induction false} DistinctIs(s: seq<Entry>)
    ensures Distinct(s) <==> forall e :: multiset(s)[e] <= 1
  {
    if s != [] {
      var rest := multiset(s[1..]);
      DistinctIs(s[1..]);
      FirstAndRest(s);
      DistinctRest(s);
      if Distinct(s) {
        forall e ensures multiset(s)[e] <= 1 {
          assert rest[e] <= 1;
        }
      } else if Distinct(s[1..]) {
        assert multiset(s)[s[0]] >= 2;
      } else {
        var e :| rest[e] > 1;
        assert multiset(s)[e] > 1;
      }
    }
  }

  lemma DistinctRest(s: seq<Entry>)
    requires s != []
    ensures Distinct(s) <==> Distinct(s[1..]) && s[0] !in multiset(s[1..])
  {
    if Distinct(s[1..]) && s[0] !in multiset(s[1..]) {
      forall i, j | 0 <= i < j < |s| ensures s[i] != s[j] {
        assert s[j] == s[1..][j - 1];
        if i > 0 {
          assert s[i] == s[1..][i - 1];
        }
      }
    }
  }

  lemma ShuffledKeeps(s: seq<Entry>, choices: seq<nat>)
    requires Choices(choices, |s|) && Distinct(s)
    ensures var t := Shuffled(s, choices);
      Distinct(t) && (forall e :: e in t <==> e in s) && forall i :: 0 <= i < |t| ==> t[i] in s
  {
    ShuffledIsPermutation(s, choices);
    DistinctIs(s);
    DistinctIs(Shuffled(s, choices));
    forall e ensures e in Shuffled(s, choices) <==> e in s {
      assert e in multiset(s) <==> e in multiset(Shuffled(s, choices));
    }
    var t := Shuffled(s, choices);
    forall i | 0 <= i < |t| ensures t[i] in s {
      assert t[i] in multiset(t);
      assert t[i] in multiset(s);
    }
  }

  lemma NotYetPlaced(s: seq<Entry>, n: nat)
    requires n < |s| && Distinct(s)
    ensures s[n] !in s[..n] && forall i :: n < i < |s| ==> s[i] != s[n] && s[i] !in s[..n]
  {
  }

  /** One swap of the array is one step of the shuffle. */
  lemma ShuffleStep<T>(s: seq<T>, n: nat, choices: seq<nat>)
    requires n + 1 < |s| && n < |choices| && Choices(choices[n..], |s| - n)
    ensures n + choices[n] < |s| && Choices(choices[n + 1..], |s| - n - 1)
    ensures var t := Swapped(s, n, n + choices[n]);
      s[..n] + Shuffled(s[n..], choices[n..]) == t[..n + 1] + Shuffled(t[n + 1..], choices[n + 1..])
  {
    var c := choices[n..];
    assert c[0] == choices[n] && c[1..] == choices[n + 1..];
    var t := Swapped(s, n, n + choices[n]);
    var u := Swapped(s[n..], 0, c[0]);
    assert u == t[n..] && u[1..] == t[n + 1..];
    assert t[..n + 1] == s[..n] + [u[0]];
  }

  /** The swaps, in place. */
  method ShuffleArray(arr: array<Entry?>, ghost was: seq<Entry>, choices: seq<nat>)
    requires arr.Length == |was| && Choices(choices, |was|)
    requires forall i :: 0 <= i < |was| ==> arr[i] == was[i]
    modifies arr
    ensures forall i :: 0 <= i < |was| ==> arr[i] == Shuffled(was, choices)[i]
  {
    hide Shuffled;
    ghost var s := was;
    var count := arr.Length;
    var n := 0;
    assert s[0..] == s && s[..0] == [] && choices[0..] == choices;
    while n < count - 1
      invariant 0 <= n <= count == |s| && (n <= count - 1 || n == 0)
      invariant forall i :: 0 <= i < count ==> arr[i] == s[i]
      invariant n <= |choices| && Choices(choices[n..], count - n)
      invariant Shuffled(was, choices) == s[..n] + Shuffled(s[n..], choices[n..])
    {
      ShuffleStep(s, n, choices);
      var j := choices[n];
      ghost var t := Swapped(s, n, n + j);
      arr[n], arr[n + j] := arr[n + j], arr[n];
      s := t;
      n := n + 1;
    }
    ShuffledShort(s[n..], choices[n..]);
    assert s[..n] + s[n..] == s;
  }

  lemma ShuffledShort<T>(s: seq<T>, choices: seq<nat>)
    requires |s| <= 1 && Choices(choices, |s|)
    ensures Shuffled(s, choices) == s
  {
  }
}
