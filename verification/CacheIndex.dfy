/** What the index of ijkavformat/ijkiocache.c says about the cache file: the
    entries of a tree and the bytes they stand for. */
module CacheIndex {
  import opened Common
  import opened AvlTree

  /** IjkCacheTreeInfo: the index of one logical file. */
  datatype TreeInfo = TreeInfo(root: Tree, physicalInitPos: int, physicalSize: int, fileSize: int)

  const EMPTY_TREE := TreeInfo(Nil, 0, 0, 0)

  /** Every entry lies in `[0, last)` of the cache file, which holds the matching
      source bytes there. */
  ghost predicate Stored(src: seq<byte>, file: seq<byte>, last: int, entries: set<Entry>) {
    forall e :: e in entries ==> EntryStored(src, file, last, e)
  }

  ghost predicate EntryStored(src: seq<byte>, file: seq<byte>, last: int, e: Entry) {
    && 0 <= e.logical && 0 <= e.size && 0 <= e.physical
    && e.physical + e.size <= last <= |file|
    && Matches(src, e.logical, file[e.physical..e.physical + e.size])
  }

  ghost predicate LogicallyDisjoint(entries: set<Entry>) {
    forall e, f :: e in entries && f in entries && e.logical < f.logical ==> e.logical + e.size <= f.logical
  }

  /** The file ranges of two entries have no byte in common. */
  predicate Apart(e: Entry, f: Entry) {
    e.size == 0 || f.size == 0 || e.physical + e.size <= f.physical || f.physical + f.size <= e.physical
  }

  ghost predicate PhysicallyDisjoint(entries: set<Entry>) {
    forall e, f :: e in entries && f in entries && e != f ==> Apart(e, f)
  }

  /** No entry overlaps `[pos, pos + len)`. */
  ghost predicate Gap(entries: set<Entry>, pos: int, len: int) {
    forall e :: e in entries ==> e.logical + e.size <= pos || (pos < e.logical && pos + len <= e.logical)
  }

  ghost predicate TreeOk(src: seq<byte>, file: seq<byte>, last: int, t: Tree) {
    && Ordered(t) && Balanced(t)
    && Stored(src, file, last, Elems(t))
    && LogicallyDisjoint(Elems(t)) && PhysicallyDisjoint(Elems(t))
  }

  /** `entry->size += n` for the entry at `key`. */
  function GrowEntry(t: Tree, key: int, n: int): Tree {
    match t
    case Nil => Nil
    case Node(l, e, s, r) =>
      if key == e.logical then Node(l, e.(size := e.size + n), s, r)
      else if key < e.logical then Node(GrowEntry(l, key, n), e, s, r)
      else Node(l, e, s, GrowEntry(r, key, n))
  }

  lemma {:induction false} GrowEntryElems(t: Tree, e: Entry, n: int)
    requires Ordered(t) && e in Elems(t)
    ensures Elems(GrowEntry(t, e.logical, n)) == Elems(t) - {e} + {e.(size := e.size + n)}
    ensures Ordered(GrowEntry(t, e.logical, n))
    decreases t
  {
    var Node(l, x, s, r) := t;
    var e' := e.(size := e.size + n);
    ReplaceSplit(Elems(l), x, Elems(r), e, e');
    hide AllBelow, AllAbove;
    if e.logical < x.logical {
      GrowEntryElems(l, e, n);
      OrderedJoin(GrowEntry(l, e.logical, n), x, s, r);
    } else if e.logical > x.logical {
      GrowEntryElems(r, e, n);
      OrderedJoin(l, x, s, GrowEntry(r, e.logical, n));
    } else {
      OrderedJoin(l, e', s, r);
    }
  }

  /** An element of an ordered node replaced by one with the same key. */
  lemma ReplaceSplit(l: set<Entry>, x: Entry, r: set<Entry>, e: Entry, e': Entry)
    requires AllBelow(l, x.logical) && AllAbove(r, x.logical)
    requires e in l + {x} + r && e'.logical == e.logical
    ensures e.logical < x.logical ==>
      (e in l && AllBelow(l - {e} + {e'}, x.logical) && (l - {e} + {e'}) + {x} + r == (l + {x} + r) - {e} + {e'})
    ensures e.logical > x.logical ==>
      (e in r && AllAbove(r - {e} + {e'}, x.logical) && l + {x} + (r - {e} + {e'}) == (l + {x} + r) - {e} + {e'})
    ensures e.logical == x.logical ==>
      (AllBelow(l, e'.logical) && AllAbove(r, e'.logical) && e == x && l + {e'} + r == (l + {x} + r) - {e} + {e'})
  {
  }

  lemma {:induction false} GrowEntryBalanced(t: Tree, key: int, n: int)
    requires Balanced(t)
    ensures Balanced(GrowEntry(t, key, n)) && Height(GrowEntry(t, key, n)) == Height(t)
    decreases t
  {
    if t.Node? {
      GrowEntryBalanced(t.child0, key, n);
      GrowEntryBalanced(t.child1, key, n);
    }
  }

  /** `data` written at offset `pos` of a file. */
  function Overwrite(file: seq<byte>, pos: nat, data: seq<byte>): (f: seq<byte>)
    requires pos <= |file|
    ensures |f| == Max(|file|, pos + |data|)
  {
    file[..pos] + data + file[Min(pos + |data|, |file|)..]
  }

  lemma OverwriteSlices(file: seq<byte>, pos: nat, data: seq<byte>, i: nat, j: nat)
    requires pos <= |file|
    requires i <= j
    ensures j <= pos ==> Overwrite(file, pos, data)[i..j] == file[i..j]
    ensures Overwrite(file, pos, data)[pos..pos + |data|] == data
    ensures i <= pos ==> Overwrite(file, pos, data)[i..pos + |data|] == file[i..pos] + data
  {
  }

  /** The entry a search ends at: the one at the position, or else the last before it. */
  function Nearest(t: Tree, pos: int): Option<Entry> {
    var (e, slots) := Find(t, pos, Slots(None, None));
    if e.Some? then e else slots.prev
  }

  /** The entry behind a position. */
  function Behind(t: Tree, pos: int): Option<Entry> {
    Find(t, pos, Slots(None, None)).1.succ
  }

  /** add_entry and sync_add_entry after the write: `n` bytes of the position
      `logical` are at offset `physical` of the file. */
  function Index(t: Tree, logical: int, physical: int, n: int): Tree {
    var e := Nearest(t, logical);
    if e.None? || e.value.logical + e.value.size != logical || e.value.physical + e.value.size != physical then
      Insert(t, Entry(logical, physical, n), true).tree
    else
      GrowEntry(t, e.value.logical, n)
  }

  /** The new range does not continue the nearest entry, and an entry has its key. */
  predicate Clash(t: Tree, pos: int, last: int, n: int) {
    var e := Nearest(t, pos);
    && (e.None? || e.value.logical + e.value.size != pos || e.value.physical + e.value.size != last)
    && ReturnsOther(Insert(t, Entry(pos, last, n), true), Entry(pos, last, n))
  }

  /** The insertion returned another entry than the given one. Entries are told apart
      by their address; one that reads alike is another one if the spare node is left. */
  predicate ReturnsOther(o: Outcome, e: Entry) {
    o.ret.Some? && (o.ret.value != e || o.next)
  }

  /** Adding fails exactly when the range does not continue the nearest entry and an
      entry begins at the same position. */
  lemma ClashExactly(t: Tree, pos: int, last: int, n: int)
    requires Ordered(t)
    ensures var e := Nearest(t, pos);
      Clash(t, pos, last, n) <==>
        && HasKey(Elems(t), pos)
        && (e.None? || e.value.logical + e.value.size != pos || e.value.physical + e.value.size != last)
  {
    InsertElems(t, Entry(pos, last, n), true);
    InsertReturns(t, Entry(pos, last, n), true);
    hide Insert, Nearest, Elems, Ordered, HasKey;
  }

  /** `o` is the last entry at or before `pos`. */
  ghost predicate IsFloor(s: set<Entry>, pos: int, o: Option<Entry>) {
    match o
    case Some(e) => e in s && e.logical <= pos && forall f :: f in s && f.logical <= pos ==> f.logical <= e.logical
    case None => AllAbove(s, pos)
  }

  ghost predicate UniqueKeys(s: set<Entry>) {
    forall e, f :: e in s && f in s && e.logical == f.logical ==> e == f
  }

  lemma OrderedUnique(t: Tree)
    requires Ordered(t)
    ensures UniqueKeys(Elems(t))
  {
    forall e, f | e in Elems(t) && f in Elems(t) && e.logical == f.logical
      ensures e == f
    {
      KeysDistinct(t, e);
    }
  }

  lemma FloorOfSlots(s: set<Entry>, pos: int, found: Option<Entry>, prev: Option<Entry>)
    requires found.Some? ==> found.value in s && found.value.logical == pos
    requires found.None? ==> !HasKey(s, pos)
    requires IsPrev(s, pos, None, prev)
    ensures IsFloor(s, pos, if found.Some? then found else prev)
  {
    if found.None? {
      assert forall f :: f in s ==> f.logical != pos;
    }
  }

  lemma NearestSpec(t: Tree, pos: int)
    requires Ordered(t)
    ensures IsFloor(Elems(t), pos, Nearest(t, pos))
    ensures IsNext(Elems(t), pos, None, Behind(t, pos))
  {
    FindSpec(t, pos, Slots(None, None));
    var (e, slots) := Find(t, pos, Slots(None, None));
    FloorOfSlots(Elems(t), pos, e, slots.prev);
    hide Find, Elems, Ordered, IsPrev, IsNext, IsFloor, HasKey;
  }

  /** The entry that holds the byte at `pos`. */
  function Covering(t: Tree, pos: int): Option<Entry> {
    var e := Nearest(t, pos);
    if e.Some? && pos - e.value.logical < e.value.size && e.value.logical <= pos then e else None
  }

  /** Only the nearest entry can hold the byte at a position. */
  lemma CoveringSpec(t: Tree, pos: int, f: Entry)
    requires Ordered(t) && LogicallyDisjoint(Elems(t))
    ensures var c := Covering(t, pos);
      && (c.Some? ==> c.value in Elems(t) && c.value.logical <= pos < c.value.logical + c.value.size)
      && (f in Elems(t) && f.logical <= pos < f.logical + f.size ==> c == Some(f))
  {
    NearestSpec(t, pos);
    OrderedUnique(t);
    if f in Elems(t) && f.logical <= pos < f.logical + f.size {
      FloorCovers(Elems(t), pos, Nearest(t, pos), f);
    }
    hide Nearest, Behind, Elems, Ordered, IsNext, LogicallyDisjoint, UniqueKeys;
  }

  lemma FloorCovers(s: set<Entry>, pos: int, floor: Option<Entry>, f: Entry)
    requires IsFloor(s, pos, floor) && LogicallyDisjoint(s) && UniqueKeys(s)
    requires f in s && f.logical <= pos < f.logical + f.size
    ensures floor == Some(f)
  {
  }

  /** What the file holds for a position inside an entry. */
  lemma CachedBytes(src: seq<byte>, file: seq<byte>, last: int, e: Entry, pos: int, n: nat)
    requires EntryStored(src, file, last, e) && e.logical <= pos && pos - e.logical + n <= e.size
    ensures var at := e.physical + (pos - e.logical);
      0 <= at && at + n <= |file| && Matches(src, pos, file[at..at + n])
  {
    var i := pos - e.logical;
    MatchesSlice(src, e.logical, file[e.physical..e.physical + e.size], i, i + n);
    SliceSlice(file, e.physical, e.physical + e.size, i, i + n);
    hide Matches;
  }

  /** Between an uncovered position and the next entry nothing is indexed. */
  lemma GapAt(t: Tree, pos: int, room: int)
    requires Ordered(t) && LogicallyDisjoint(Elems(t)) && Covering(t, pos).None? && room > 0
    requires Behind(t, pos).None? || pos + room <= Behind(t, pos).value.logical
    requires forall e :: e in Elems(t) ==> 0 <= e.size
    ensures Gap(Elems(t), pos, room)
  {
    NearestSpec(t, pos);
    OrderedUnique(t);
    var floor, behind := Nearest(t, pos), Behind(t, pos);
    forall e | e in Elems(t)
      ensures e.logical + e.size <= pos || pos + room <= e.logical
    {
      if e.logical <= pos < e.logical + e.size {
        FloorCovers(Elems(t), pos, floor, e);
      }
      if pos < e.logical {
        BehindIsLeast(Elems(t), pos, behind, e);
      }
      hide Nearest, Behind, Elems, Ordered, IsNext, IsFloor, LogicallyDisjoint, UniqueKeys;
    }
    hide Nearest, Behind, Elems, Ordered, IsNext, IsFloor, LogicallyDisjoint, UniqueKeys;
  }

  lemma BehindIsLeast(s: set<Entry>, pos: int, behind: Option<Entry>, e: Entry)
    requires IsNext(s, pos, None, behind) && e in s && pos < e.logical
    ensures behind.Some? && behind.value.logical <= e.logical
  {
  }

  // ----- an added range -----

  lemma StoredKept(src: seq<byte>, file: seq<byte>, last: nat, data: seq<byte>, entries: set<Entry>)
    requires last <= |file| && Stored(src, file, last, entries)
    ensures Stored(src, Overwrite(file, last, data), last + |data|, entries)
  {
    forall e | e in entries
      ensures EntryStored(src, Overwrite(file, last, data), last + |data|, e)
    {
      assert EntryStored(src, file, last, e);
      OverwriteSlices(file, last, data, e.physical, e.physical + e.size);
    }
  }

  /** A new entry for data appended to the used part of the file. */
  lemma InsertOk(src: seq<byte>, file: seq<byte>, last: nat, t: Tree, pos: nat, data: seq<byte>, room: nat)
    requires TreeOk(src, file, last, t) && last <= |file|
    requires Matches(src, pos, data) && |data| <= room && Gap(Elems(t), pos, room) && room > 0
    ensures TreeOk(src, Overwrite(file, last, data), last + |data|, Insert(t, Entry(pos, last, |data|), true).tree)
  {
    var e := Entry(pos, last, |data|);
    var file' := Overwrite(file, last, data);
    var t' := Insert(t, e, true).tree;
    StoredKept(src, file, last, data, Elems(t));
    InsertElems(t, e, true);
    InsertBalanced(t, e, true);
    OverwriteSlices(file, last, data, last, last + |data|);
    assert EntryStored(src, file', last + |data|, e);
    InsertDisjoint(src, file, last, Elems(t), e, room);
    hide Insert, Stored, LogicallyDisjoint, PhysicallyDisjoint, Ordered, Balanced, Elems, Gap, EntryStored;
    StoredAdd(src, file', last + |data|, Elems(t), e);
  }

  lemma StoredAdd(src: seq<byte>, file: seq<byte>, last: int, entries: set<Entry>, e: Entry)
    requires Stored(src, file, last, entries) && EntryStored(src, file, last, e)
    ensures Stored(src, file, last, entries + {e})
  {
  }

  lemma InsertDisjoint(src: seq<byte>, file: seq<byte>, last: int, entries: set<Entry>, e: Entry, room: int)
    requires Stored(src, file, last, entries) && LogicallyDisjoint(entries) && PhysicallyDisjoint(entries)
    requires Gap(entries, e.logical, room) && e.physical == last && 0 <= e.size <= room && room > 0
    ensures LogicallyDisjoint(entries + {e}) && PhysicallyDisjoint(entries + {e})
  {
    assert forall f :: f in entries ==> EntryStored(src, file, last, f);
    hide EntryStored, Matches;
    forall f | f in entries
      ensures Apart(e, f) && Apart(f, e)
      ensures (f.logical < e.logical ==> f.logical + f.size <= e.logical) && (e.logical < f.logical ==> e.logical + e.size <= f.logical)
    {
      assert EntryStored(src, file, last, f);
      StoredBounds(src, file, last, f);
    }
  }

  lemma StoredBounds(src: seq<byte>, file: seq<byte>, last: int, e: Entry)
    requires EntryStored(src, file, last, e)
    ensures 0 <= e.logical && 0 <= e.size && 0 <= e.physical && e.physical + e.size <= last <= |file|
  {
  }

  /** An entry that ends where the data belongs, in the stream and in the file. */
  lemma GrowOk(src: seq<byte>, file: seq<byte>, last: nat, t: Tree, e: Entry, data: seq<byte>, room: nat)
    requires TreeOk(src, file, last, t) && last <= |file| && e in Elems(t)
    requires e.logical + e.size >= 0 && e.physical + e.size == last
    requires forall f :: f in Elems(t) && f.logical <= e.logical + e.size ==> f.logical <= e.logical
    requires Matches(src, e.logical + e.size, data) && |data| <= room && Gap(Elems(t), e.logical + e.size, room) && room > 0
    ensures TreeOk(src, Overwrite(file, last, data), last + |data|, GrowEntry(t, e.logical, |data|))
  {
    GrowStored(src, file, last, t, e, data);
    GrowShape(src, file, last, t, e, |data|, room);
    hide *;
  }

  lemma GrowShape(src: seq<byte>, file: seq<byte>, last: int, t: Tree, e: Entry, n: nat, room: int)
    requires TreeOk(src, file, last, t) && e in Elems(t)
    requires e.physical + e.size == last && n <= room && room > 0 && Gap(Elems(t), e.logical + e.size, room)
    requires forall f :: f in Elems(t) && f.logical <= e.logical + e.size ==> f.logical <= e.logical
    ensures var t' := GrowEntry(t, e.logical, n);
      Ordered(t') && Balanced(t') && LogicallyDisjoint(Elems(t')) && PhysicallyDisjoint(Elems(t'))
  {
    GrowEntryElems(t, e, n);
    GrowEntryBalanced(t, e.logical, n);
    GrowDisjoint(src, file, last, Elems(t), e, n, room);
    hide *;
  }

  lemma GrowStored(src: seq<byte>, file: seq<byte>, last: nat, t: Tree, e: Entry, data: seq<byte>)
    requires Ordered(t) && Stored(src, file, last, Elems(t)) && last <= |file| && e in Elems(t)
    requires e.physical + e.size == last && Matches(src, e.logical + e.size, data)
    ensures Stored(src, Overwrite(file, last, data), last + |data|, Elems(GrowEntry(t, e.logical, |data|)))
  {
    GrowEntryElems(t, e, |data|);
    StoredReplace(src, file, last, Elems(t), e, data);
    hide *;
  }

  lemma StoredReplace(src: seq<byte>, file: seq<byte>, last: nat, entries: set<Entry>, e: Entry, data: seq<byte>)
    requires Stored(src, file, last, entries) && last <= |file| && e in entries
    requires e.physical + e.size == last && Matches(src, e.logical + e.size, data)
    ensures Stored(src, Overwrite(file, last, data), last + |data|, entries - {e} + {e.(size := e.size + |data|)})
  {
    StoredKept(src, file, last, data, entries);
    assert EntryStored(src, file, last, e);
    GrownStored(src, file, last, e, data);
    hide EntryStored;
  }

  lemma GrownStored(src: seq<byte>, file: seq<byte>, last: nat, e: Entry, data: seq<byte>)
    requires EntryStored(src, file, last, e) && e.physical + e.size == last
    requires Matches(src, e.logical + e.size, data)
    ensures EntryStored(src, Overwrite(file, last, data), last + |data|, e.(size := e.size + |data|))
  {
    MatchesConcat(src, e.logical, file[e.physical..last], data);
    OverwriteSlices(file, last, data, e.physical, last);
    hide Matches;
  }

  lemma GrowDisjoint(src: seq<byte>, file: seq<byte>, last: int, entries: set<Entry>, e: Entry, n: nat, room: int)
    requires Stored(src, file, last, entries) && LogicallyDisjoint(entries) && PhysicallyDisjoint(entries)
    requires e in entries && e.physical + e.size == last && n <= room && room > 0 && Gap(entries, e.logical + e.size, room)
    requires forall f :: f in entries && f.logical <= e.logical + e.size ==> f.logical <= e.logical
    ensures LogicallyDisjoint(entries - {e} + {e.(size := e.size + n)})
    ensures PhysicallyDisjoint(entries - {e} + {e.(size := e.size + n)})
  {
    var e' := e.(size := e.size + n);
    assert EntryStored(src, file, last, e);
    StoredBounds(src, file, last, e);
    hide EntryStored, Matches;
    forall f | f in entries - {e}
      ensures Apart(e', f) && Apart(f, e')
      ensures (f.logical < e.logical ==> f.logical + f.size <= e.logical) && (e.logical < f.logical ==> e.logical + e'.size <= f.logical)
    {
      assert EntryStored(src, file, last, f);
      StoredBounds(src, file, last, f);
    }
  }

  /** The index stays right when `data` of the source position `pos` is appended
      to the used part of the file and indexed: nothing that was cached is lost
      and the new range is cached, unless an empty entry is in the way. */
  lemma IndexOk(src: seq<byte>, file: seq<byte>, last: nat, t: Tree, pos: nat, data: seq<byte>, room: nat)
    requires TreeOk(src, file, last, t) && last <= |file|
    requires Matches(src, pos, data) && |data| <= room && Gap(Elems(t), pos, room) && room > 0
    ensures TreeOk(src, Overwrite(file, last, data), last + |data|, Index(t, pos, last, |data|))
  {
    NearestSpec(t, pos);
    var e := Nearest(t, pos);
    if e.None? || e.value.logical + e.value.size != pos || e.value.physical + e.value.size != last {
      InsertOk(src, file, last, t, pos, data, room);
    } else {
      GrowOk(src, file, last, t, e.value, data, room);
    }
    hide *;
  }

  /** The bytes just added are found again, unless an entry was in the way. */
  lemma IndexCovers(t: Tree, pos: int, last: int, n: nat, p: int)
    requires Ordered(t) && pos <= p < pos + n
    requires var t' := Index(t, pos, last, n); Ordered(t') && LogicallyDisjoint(Elems(t'))
    ensures Clash(t, pos, last, n) || Covering(Index(t, pos, last, n), p).Some?
  {
    var t' := Index(t, pos, last, n);
    var f := IndexedEntry(t, pos, last, n);
    hide *;
    CoveringSpec(t', p, f);
  }

  /** The entry that records the added bytes. */
  lemma IndexedEntry(t: Tree, pos: int, last: int, n: nat) returns (f: Entry)
    requires Ordered(t)
    ensures Clash(t, pos, last, n) || (f in Elems(Index(t, pos, last, n)) && f.logical <= pos && f.logical + f.size == pos + n)
  {
    NearestSpec(t, pos);
    var e := Nearest(t, pos);
    f := Entry(pos, last, n);
    if e.None? || e.value.logical + e.value.size != pos || e.value.physical + e.value.size != last {
      InsertElems(t, f, true);
      InsertReturns(t, f, true);
      hide Insert, GrowEntry, Nearest, Elems, Ordered, IsNext;
    } else {
      GrowEntryElems(t, e.value, n);
      f := e.value.(size := e.value.size + n);
      hide Insert, GrowEntry, Nearest, Elems, Ordered, IsNext;
    }
  }

  /** What was found before is still found. */
  lemma IndexKeeps(t: Tree, pos: int, last: int, n: nat, p: int)
    requires Ordered(t) && LogicallyDisjoint(Elems(t)) && Covering(t, p).Some?
    requires var t' := Index(t, pos, last, n); Ordered(t') && LogicallyDisjoint(Elems(t'))
    ensures Covering(Index(t, pos, last, n), p).Some?
  {
    var e := Covering(t, p).value;
    CoveringSpec(t, p, e);
    var f := KeptEntry(t, pos, last, n, e);
    hide *;
    CoveringSpec(Index(t, pos, last, n), p, f);
  }

  lemma KeptEntry(t: Tree, pos: int, last: int, n: nat, e: Entry) returns (f: Entry)
    requires Ordered(t) && e in Elems(t)
    ensures f in Elems(Index(t, pos, last, n)) && f.logical == e.logical && e.size <= f.size
  {
    NearestSpec(t, pos);
    var x := Nearest(t, pos);
    f := e;
    if x.None? || x.value.logical + x.value.size != pos || x.value.physical + x.value.size != last {
      InsertElems(t, Entry(pos, last, n), true);
      hide Insert, GrowEntry, Nearest, Elems, Ordered, IsNext;
    } else {
      GrowEntryElems(t, x.value, n);
      f := if x.value == e then e.(size := e.size + n) else e;
      hide Insert, GrowEntry, Nearest, Elems, Ordered, IsNext;
    }
  }

  lemma IndexApart(t: Tree, pos: int, last: int, n: nat, f: Entry)
    requires Ordered(t) && 0 <= f.size && f.physical + f.size <= last
    requires forall e :: e in Elems(t) ==> Apart(e, f) && 0 <= e.size
    ensures forall e :: e in Elems(Index(t, pos, last, n)) ==> Apart(e, f)
  {
    NearestSpec(t, pos);
    var e := Nearest(t, pos);
    if e.None? || e.value.logical + e.value.size != pos || e.value.physical + e.value.size != last {
      InsertElems(t, Entry(pos, last, n), true);
    } else {
      GrowEntryElems(t, e.value, n);
    }
    hide Insert, GrowEntry, Nearest, Elems, Ordered;
  }

  // ----- all trees of one cache file -----

  ghost function TotalSize(trees: map<int, TreeInfo>): int
    decreases |trees|
  {
    if !exists k :: k in trees then 0
    else
      var k :| k in trees;
      trees[k].physicalSize + TotalSize(trees - {k})
  }

  lemma {:induction false} TotalSizePick(trees: map<int, TreeInfo>, k: int)
    requires k in trees
    ensures TotalSize(trees) == trees[k].physicalSize + TotalSize(trees - {k})
    decreases |trees|
  {
    var j :| j in trees && TotalSize(trees) == trees[j].physicalSize + TotalSize(trees - {j});
    if j != k {
      TotalSizePick(trees - {j}, k);
      TotalSizePick(trees - {k}, j);
      assert trees - {j} - {k} == trees - {k} - {j};
    }
  }

  lemma TotalSizeUpdate(trees: map<int, TreeInfo>, k: int, info: TreeInfo)
    ensures TotalSize(trees[k := info]) == info.physicalSize + TotalSize(trees - {k})
  {
    TotalSizePick(trees[k := info], k);
    assert trees[k := info] - {k} == trees - {k};
  }

  ghost predicate TreesStored(sources: map<int, seq<byte>>, file: seq<byte>, last: int, trees: map<int, TreeInfo>) {
    forall k :: k in trees ==> k in sources && TreeOk(sources[k], file, last, trees[k].root)
  }

  ghost predicate TreesApart(trees: map<int, TreeInfo>) {
    forall j, k, e, f :: j in trees && k in trees && j != k && e in Elems(trees[j].root) && f in Elems(trees[k].root) ==>
      Apart(e, f)
  }

  /** The index describes the cache file: every tree is right, no byte of the
      file belongs to two entries, and the used part of the file is as long as
      all trees together say. */
  ghost predicate Coherent(sources: map<int, seq<byte>>, file: seq<byte>, last: int, trees: map<int, TreeInfo>) {
    && 0 <= last <= |file|
    && TreesStored(sources, file, last, trees) && TreesApart(trees)
    && TotalSize(trees) == last
  }

  lemma CoherentEmpty(sources: map<int, seq<byte>>, file: seq<byte>, k: int)
    requires k in sources
    ensures Coherent(sources, file, 0, map[])
    ensures Coherent(sources, file, 0, map[k := EMPTY_TREE])
  {
    var none: map<int, TreeInfo> := map[];
    TotalSizeUpdate(none, k, EMPTY_TREE);
    assert none - {k} == none;
    assert none[k := EMPTY_TREE] == map[k := EMPTY_TREE];
  }

  /** Writing `data` to the end of the used part and indexing it for tree `k`. */
  function Added(trees: map<int, TreeInfo>, k: int, pos: int, last: int, n: int): map<int, TreeInfo>
    requires k in trees
  {
    trees[k := trees[k].(root := Index(trees[k].root, pos, last, n), physicalSize := trees[k].physicalSize + n)]
  }

  lemma CoherentAdded(sources: map<int, seq<byte>>, file: seq<byte>, last: nat, trees: map<int, TreeInfo>,
                      k: int, pos: nat, data: seq<byte>, room: nat)
    requires Coherent(sources, file, last, trees) && k in trees && k in sources
    requires Matches(sources[k], pos, data) && |data| <= room && Gap(Elems(trees[k].root), pos, room) && room > 0
    ensures Coherent(sources, Overwrite(file, last, data), last + |data|, Added(trees, k, pos, last, |data|))
  {
    var trees' := Added(trees, k, pos, last, |data|);
    TotalSizePick(trees, k);
    TotalSizeUpdate(trees, k, trees'[k]);
    assert TreeOk(sources[k], file, last, trees[k].root);
    IndexOk(sources[k], file, last, trees[k].root, pos, data, room);
    AddedStored(sources, file, last, trees, k, data, trees'[k]);
    AddedApart(sources, file, last, trees, k, pos, |data|);
    hide *;
  }

  lemma AddedStored(sources: map<int, seq<byte>>, file: seq<byte>, last: nat, trees: map<int, TreeInfo>,
                    k: int, data: seq<byte>, info: TreeInfo)
    requires TreesStored(sources, file, last, trees) && last <= |file| && k in sources
    requires TreeOk(sources[k], Overwrite(file, last, data), last + |data|, info.root)
    ensures TreesStored(sources, Overwrite(file, last, data), last + |data|, trees[k := info])
  {
    forall j | j in trees && j != k
      ensures j in sources && TreeOk(sources[j], Overwrite(file, last, data), last + |data|, trees[j].root)
    {
      assert TreeOk(sources[j], file, last, trees[j].root);
      StoredKept(sources[j], file, last, data, Elems(trees[j].root));
      hide Stored, LogicallyDisjoint, PhysicallyDisjoint, Ordered, Balanced, Elems;
    }
    hide TreeOk, Overwrite;
  }

  lemma AddedApart(sources: map<int, seq<byte>>, file: seq<byte>, last: nat, trees: map<int, TreeInfo>,
                   k: int, pos: int, n: nat)
    requires TreesStored(sources, file, last, trees) && TreesApart(trees) && k in trees
    ensures TreesApart(Added(trees, k, pos, last, n))
  {
    var t := trees[k].root;
    assert TreeOk(sources[k], file, last, t);
    forall j, f | j in trees && j != k && f in Elems(trees[j].root)
      ensures forall e :: e in Elems(Index(t, pos, last, n)) ==> Apart(e, f) && Apart(f, e)
    {
      assert TreeOk(sources[j], file, last, trees[j].root);
      assert EntryStored(sources[j], file, last, f);
      forall e | e in Elems(t)
        ensures Apart(e, f) && 0 <= e.size
      {
        assert EntryStored(sources[k], file, last, e);
      }
      IndexApart(t, pos, last, n, f);
    }
    hide Index, TreeOk, Elems;
  }
}
