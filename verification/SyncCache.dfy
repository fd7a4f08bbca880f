/** ijkavformat/ijkiocache.c without prefetching: a read-through cache that a
    caller cannot tell from the plain source it speeds up. */
module SyncCache {
  import opened Common
  import opened AvlTree
  import opened CacheIndex
  import opened CacheStorage
  import opened Source
  import opened SyncTrace

  class Cache {
    const inner: Url
    const file: CacheFile
    const curNo: int
    const maxCapacity: int
    const onlyRead: bool
    const shared: bool
    /** what the other files of the index are copies of */
    ghost const sources: map<int, seq<byte>>

    var trees: map<int, TreeInfo>          // cache_info_map
    var haveTree: bool                     // tree_info != NULL
    var last: int                          // *last_physical_pos
    var cachePhysical: int                 // cache_physical_pos
    var readLogical: nat
    var readInner: int
    var logicalSize: int
    var asyncOpen: bool
    /** bytes were written to another place than the index says, and the index was
        not emptied since */
    ghost var misplaced: bool
    /** how often a flush could not move the offset to the front */
    ghost var lostRewinds: nat

    /** The offset is not the recorded one. This is harmless as long as nothing is
        in the index. */
    ghost predicate Displaced()
      reads this`last, this`cachePhysical, file`pos
    {
      file.pos != cachePhysical == last == 0
    }

    /** Nothing is misplaced, and the next write will not misplace anything. */
    ghost predicate Synced()
      reads this`misplaced, this`last, this`cachePhysical, file`open, file`pos
    {
      !misplaced && !(file.open && Displaced())
    }

    /** The index agrees with the file, and so does the offset, except after a
        flush that could not rewind the file. */
    ghost predicate Sound()
      reads this, file
    {
      && Coherent(sources, file.bytes, last, trees)
      && (file.open ==> file.pos == cachePhysical || Displaced())
    }

    ghost predicate SourceOk()
      reads this, inner
    {
      curNo in sources && sources[curNo] == inner.data && inner.pos == readInner
    }

    ghost predicate Valid()
      reads this, inner, file
    {
      && SourceOk()
      && (haveTree ==> file.open && curNo in trees)
      && (!misplaced ==> Sound())
    }

    ghost predicate WithinCapacity()
      reads this`last, file`bytes
    {
      0 <= last <= maxCapacity && |file.bytes| <= maxCapacity
    }

    /** The state after ijkio_cache_open found an index that fits the file. */
    constructor (inner: Url, file: CacheFile, ghost sources: map<int, seq<byte>>, trees: map<int, TreeInfo>, last: int,
                 curNo: int, maxCapacity: int, onlyRead: bool, shared: bool, logicalSize: int, asyncOpen: bool)
      requires curNo in sources && sources[curNo] == inner.data && inner.pos == 0
      requires curNo in trees && Coherent(sources, file.bytes, last, trees)
      requires file.open && file.pos == last
      ensures Valid() && Synced() && lostRewinds == 0 && readLogical == 0 && readInner == 0 && haveTree && cachePhysical == last
      ensures this.inner == inner && this.file == file && this.maxCapacity == maxCapacity
      ensures this.last == last && this.trees == trees && this.curNo == curNo && this.logicalSize == logicalSize
      ensures this.onlyRead == onlyRead && this.shared == shared && this.asyncOpen == asyncOpen
    {
      this.inner, this.file, this.sources := inner, file, sources;
      this.trees, this.haveTree, this.last, this.cachePhysical := trees, true, last, last;
      this.curNo, this.maxCapacity, this.onlyRead, this.shared := curNo, maxCapacity, onlyRead, shared;
      this.readLogical, this.readInner, this.logicalSize := 0, 0, logicalSize;
      this.asyncOpen, this.misplaced, this.lostRewinds := asyncOpen, false, 0;
    }

    /** Everything is forgotten, and the file is not rewound. */
    twostate predicate Forgotten()
      reads this, file
    {
      && trees == map[curNo := EMPTY_TREE] && last == cachePhysical == 0 && !misplaced
      && file.bytes == old(file.bytes) && file.pos == old(file.pos)
    }

    /** ijkio_cache_file_overrang: forget everything and start over at the front
        of the file. Afterwards the recorded offset is the real one exactly when
        moving it worked or was not needed. */
    method Overrang(cur: int) returns (freeSpace: int, pos: int)
      requires Valid()
      modifies this`trees, this`last, this`cachePhysical, this`misplaced, this`lostRewinds, file`pos, file`replies
      ensures freeSpace == if shared || pos < 0 then FILE_RW_ERROR else maxCapacity
      ensures shared ==> pos == cur && trees == old(trees) && last == old(last) && cachePhysical == old(cachePhysical) &&
                         misplaced == old(misplaced) && file.pos == old(file.pos) && file.replies == old(file.replies)
      ensures !shared ==> trees == map[curNo := EMPTY_TREE] && last == 0 && cachePhysical == 0 && !misplaced
      ensures !shared ==> file.pos == (if pos < 0 then old(file.pos) else 0) && file.replies == Rest(old(file.replies))
      ensures !shared ==> pos <= 0 && (pos == 0 <==> First(old(file.replies)).Works?)
      ensures lostRewinds == old(lostRewinds) + (if !shared && pos < 0 && file.pos != 0 then 1 else 0)
      ensures Streak(file.replies) >= Streak(old(file.replies)) - 1 && (Willing(old(file.replies)) ==> Willing(file.replies))
      ensures Valid()
    {
      if shared { return FILE_RW_ERROR, cur; }
      trees := map[curNo := EMPTY_TREE];
      last, cachePhysical := 0, 0;
      pos := file.Lseek(0);
      misplaced := false;
      if pos < 0 && file.pos != 0 {
        lostRewinds := lostRewinds + 1;
      }
      freeSpace := if pos < 0 then FILE_RW_ERROR else maxCapacity;
      CoherentEmpty(sources, file.bytes, curNo);
      hide Coherent;
    }

    /** What was synced still is exactly if no flush was unable to rewind the file
        since, and that takes an operation that fails; at most `n` were made, and the
        others are still to come. */
    ghost predicate Steady(synced0: bool, lost0: nat, replies0: seq<FileReply>, n: nat)
      reads this, file
    {
      && lost0 <= lostRewinds && (synced0 ==> (Synced() <==> lostRewinds == lost0))
      && Streak(file.replies) >= Streak(replies0) - n && (Streak(replies0) >= n ==> lostRewinds == lost0)
      && (Willing(replies0) ==> Willing(file.replies))
    }

    /** Nothing has to be moved or flushed to add `size` bytes. */
    predicate InPlace(size: nat)
      reads this`last, this`cachePhysical
    {
      last == cachePhysical && last + size < maxCapacity
    }

    /** A flush is due that will not rewind the file. */
    predicate FlushFails(size: nat)
      reads this`last, this`cachePhysical, file`replies
    {
      last == cachePhysical && last + size >= maxCapacity && !shared && First(file.replies).Breaks?
    }

    /** There is room in the file, or there may be. */
    predicate Fits(size: nat)
    {
      !shared && size <= maxCapacity
    }

    /** Where the next write goes: the end of the used part of the file, or the
        front of it after a flush. */
    method Place(size: nat) returns (ok: bool)
      requires Valid() && haveTree && size > 0
      requires !misplaced ==> Gap(Elems(trees[curNo].root), readLogical, size)
      modifies this`trees, this`last, this`cachePhysical, this`misplaced, this`lostRewinds, file`pos, file`replies
      ensures Valid()
      ensures !misplaced ==> Gap(Elems(trees[curNo].root), readLogical, size)
      ensures misplaced ==> old(misplaced)
      ensures Steady(old(Synced()), old(lostRewinds), old(file.replies), 2)
      ensures ok ==> last == cachePhysical && last + size <= maxCapacity
      ensures last == old(last) || last == 0
      ensures old(Streak(file.replies) >= 2 && Fits(size)) && !old(misplaced) ==> ok
      ensures trees[curNo].root == old(trees[curNo].root) || trees[curNo].root == Nil
      ensures old(InPlace(size)) ==> ok && trees == old(trees) && last == old(last) && cachePhysical == old(cachePhysical) &&
                                     misplaced == old(misplaced) && file.pos == old(file.pos) && file.replies == old(file.replies)
      ensures ok && !old(InPlace(size)) && !old(misplaced) ==> file.pos == last
      ensures old(FlushFails(size)) ==> !ok && Forgotten() && file.replies == Rest(old(file.replies))
    {
      if !misplaced {
        LastOk();
      }
      hide Coherent, Gap, Elems, Streak, Willing, HasKey;
      ok := Realign();
      if !ok { return; }
      if last + size >= maxCapacity {
        NothingIndexed(readLogical, size);
        var free, pos := Overrang(last);
        if free < size || pos < 0 { return false; }
        cachePhysical, last := pos, pos;
      }
      return true;
    }

    /** Move the file to the end of the used part, if it is not recorded to be there. */
    method Realign() returns (ok: bool)
      requires Valid() && haveTree
      modifies this`cachePhysical, file`pos, file`replies
      ensures Valid() && Steady(old(Synced()), old(lostRewinds), old(file.replies), 1)
      ensures ok ==> last == cachePhysical
      ensures old(last == cachePhysical) ==> ok && file.pos == old(file.pos) && file.replies == old(file.replies)
      ensures old(last != cachePhysical) ==> file.replies == Rest(old(file.replies)) && (ok ==> file.pos == last)
      ensures last >= 0 && old(Streak(file.replies)) >= 1 ==> ok
    {
      hide Coherent, Streak, Willing;
      ok := true;
      if last != cachePhysical {
        var pos := file.Lseek(last);
        ok := pos >= 0;
        if ok {
          cachePhysical := pos;
        }
      }
    }

    lemma LastOk()
      requires Coherent(sources, file.bytes, last, trees)
      ensures 0 <= last <= |file.bytes|
    {
    }

    /** The index after `n` bytes of `buf` were written to the end of the used part. */
    lemma AddOk(bytes: seq<byte>, buf: seq<byte>, n: nat)
      requires curNo in sources && curNo in trees && Coherent(sources, bytes, last, trees)
      requires Matches(sources[curNo], readLogical, buf) && n <= |buf| && |buf| > 0
      requires Gap(Elems(trees[curNo].root), readLogical, |buf|)
      ensures 0 <= last <= |bytes|
      ensures var trees' := Added(trees, curNo, readLogical, last, n);
        && Coherent(sources, WriteAt(bytes, last, buf[..n]), last + n, trees')
        && (Clash(trees[curNo].root, readLogical, last, n) ==> HasKey(Elems(trees[curNo].root), readLogical))
        && (n > 0 ==> Clash(trees[curNo].root, readLogical, last, n) || Covering(trees'[curNo].root, readLogical).Some?)
    {
      MatchesSlice(sources[curNo], readLogical, buf, 0, n);
      assert buf[0..n] == buf[..n];
      assert 0 <= last <= |bytes|;
      CoherentAdded(sources, bytes, last, trees, curNo, readLogical, buf[..n], |buf|);
      assert TreeOk(sources[curNo], bytes, last, trees[curNo].root);
      if n > 0 {
        assert TreeOk(sources[curNo], WriteAt(bytes, last, buf[..n]), last + n, Added(trees, curNo, readLogical, last, n)[curNo].root);
        IndexCovers(trees[curNo].root, readLogical, last, n, readLogical);
      }
      ClashExactly(trees[curNo].root, readLogical, last, n);
      hide Index, Clash, Covering, Ordered, Elems, LogicallyDisjoint, HasKey;
      hide Coherent, Matches, Gap, Added;
    }

    /** The second half of sync_add_entry: `n` bytes were written at `pos`. */
    method AddToIndex(pos: int, n: nat) returns (ret: int)
      requires curNo in trees
      modifies this`trees
      ensures trees == Added(old(trees), curNo, readLogical, pos, n) && curNo in trees
      ensures ret == if Clash(old(trees[curNo].root), readLogical, pos, n) then -1 else n
    {
      ret := n;
      var tree := trees[curNo].(physicalSize := trees[curNo].physicalSize + n);
      var (e, slots) := Find(tree.root, readLogical, Slots(None, None));
      if e.None? {
        e := slots.prev;
      }
      if e.None? || e.value.logical + e.value.size != readLogical || e.value.physical + e.value.size != pos {
        var entry := Entry(readLogical, pos, n);
        var o := Insert(tree.root, entry, true);
        tree := tree.(root := o.tree);
        if ReturnsOther(o, entry) {
          ret := -1;
        }
      } else {
        tree := tree.(root := GrowEntry(tree.root, e.value.logical, n));
      }
      trees := trees[curNo := tree];
    }

    /** The first `n` bytes of `buf` went to the real offset, while the index says
        that they went to the end of the used part. */
    twostate predicate Written(pos: nat, buf: seq<byte>, n: nat)
      requires n <= |buf| && curNo in old(trees)
      reads this, file
    {
      && file.bytes == WriteAt(old(file.bytes), old(file.pos), buf[..n]) && file.pos == old(file.pos) + n
      && trees == Added(old(trees), curNo, pos, old(last), n) && last == cachePhysical == old(last) + n
    }

    /** What adding `buf` for the position `pos` does when nothing has to be moved,
        and when the file cannot be rewound. */
    twostate predicate Kept(pos: nat, buf: seq<byte>)
      requires curNo in old(trees)
      reads this, file
    {
      var r := First(old(file.replies));
      && (old(InPlace(|buf|)) && r.Works? ==> Written(pos, buf, Min(r.n, |buf|)))
      && (old(FlushFails(|buf|)) ==> Forgotten())
      && (old(InPlace(|buf|) || FlushFails(|buf|)) ==> file.replies == Rest(old(file.replies)))
    }

    /** The write of `size` bytes that comes next puts some of them elsewhere. */
    predicate GoesAstray(size: nat)
      reads this`last, this`cachePhysical, file`pos, file`replies
    {
      InPlace(size) && file.pos != last && First(file.replies).Works? && First(file.replies).n > 0
    }

    /** The write and what follows it (lines 809-846). The index is wrong afterwards
        exactly when the file is not where it should be and takes a byte. */
    method Store(buf: seq<byte>) returns (ret: int)
      requires Valid() && haveTree && |buf| > 0 && Matches(inner.data, readLogical, buf)
      requires !misplaced ==> Gap(Elems(trees[curNo].root), readLogical, |buf|)
      requires last == cachePhysical && last + |buf| <= maxCapacity
      modifies this`trees, this`last, this`cachePhysical, this`misplaced, file`bytes, file`pos, file`replies
      ensures Valid() && file.replies == Rest(old(file.replies))
      ensures Steady(old(Synced()), old(lostRewinds), old(file.replies), 1)
      ensures var r := First(old(file.replies)); r.Works? ==> Written(readLogical, buf, Min(r.n, |buf|))
      ensures var r := First(old(file.replies)); !old(misplaced) ==> (misplaced <==> r.Works? && r.n > 0 && old(file.pos) != old(last))
      ensures misplaced && !old(misplaced) ==> WrongUnlessRepeated(buf)
      ensures !misplaced && old(!misplaced && WithinCapacity()) ==> WithinCapacity()
      ensures ret <= |buf|
      ensures ret > 0 && !misplaced ==> Covering(trees[curNo].root, readLogical).Some?
      ensures !misplaced && !old(StartsAt(readLogical)) ==>
        ret == if First(old(file.replies)).Works? then Min(First(old(file.replies)).n, |buf|) else FILE_RW_ERROR
    {
      hide Coherent, Matches, Gap, Elems, WriteAt, Clash, Covering, Index, Added, EntryStored, FrontRepeats, HasKey;
      ghost var bytes, at := file.bytes, file.pos;
      var n := file.Write(buf);
      if n < 0 { return FILE_RW_ERROR; }
      if !misplaced {
        AddOk(bytes, buf, n);
        if at != last && n > 0 {
          misplaced := true;
          assert buf[..n] == buf[0..n];
          MatchesSlice(inner.data, readLogical, buf, 0, n);
          MisplacedWrite(inner.data, bytes, at, readLogical, buf[..n]);
        }
      }
      ret := AddToIndex(last, n);
      cachePhysical, last := cachePhysical + n, last + n;
    }

    /** The only entry says that the bytes are in front, which is right exactly when
        the front happens to read like them. */
    twostate predicate WrongUnlessRepeated(buf: seq<byte>)
      reads this, inner, file
    {
      && 0 < last <= |buf|
      && (EntryStored(inner.data, file.bytes, last, Entry(readLogical, 0, last)) <==>
          FrontRepeats(old(file.bytes), old(file.pos), buf[..last]))
    }

    /** sync_add_entry. The index is wrong afterwards exactly when the file could
        not be rewound before and now takes at least one byte. */
    method SyncAddEntry(buf: seq<byte>) returns (ret: int)
      requires Valid() && haveTree && |buf| > 0
      requires Matches(inner.data, readLogical, buf)
      requires !misplaced ==> Gap(Elems(trees[curNo].root), readLogical, |buf|)
      modifies this`trees, this`last, this`cachePhysical, this`misplaced, this`lostRewinds, file
      ensures Valid() && file.open
      ensures Steady(old(Synced()), old(lostRewinds), old(file.replies), 3)
      ensures !old(misplaced) ==> (misplaced <==> old(GoesAstray(|buf|)))
      ensures Kept(readLogical, buf)
      ensures old(Synced() && Obliging(3) && Fits(|buf|) && !StartsAt(readLogical)) ==> Indexed(readLogical)
      ensures misplaced && !old(misplaced) ==> WrongUnlessRepeated(buf)
      ensures !misplaced && old(!misplaced && WithinCapacity()) ==> WithinCapacity()
      ensures ret <= |buf|
      ensures ret > 0 && !misplaced ==> Covering(trees[curNo].root, readLogical).Some?
    {
      hide Coherent, Matches, Gap, Elems, WriteAt, Covering, Added, EntryStored, FrontRepeats, HasKey;
      NothingIndexed(readLogical, |buf|);
      var ok := Place(|buf|);
      if !ok { return FILE_RW_ERROR; }
      ret := Store(buf);
    }

    /** `info->file_size` says nothing about the cache file. */
    lemma FileSizeOk(info: TreeInfo)
      requires curNo in trees && Coherent(sources, file.bytes, last, trees)
      requires info == trees[curNo].(fileSize := info.fileSize)
      ensures Coherent(sources, file.bytes, last, trees[curNo := info])
    {
      TotalSizePick(trees, curNo);
      TotalSizeUpdate(trees, curNo, info);
      hide TotalSize, TreeOk, Elems, Apart;
    }

    /** A cache file that cannot be read is created anew (lines 897-911). */
    method Recreate()
      requires SourceOk()
      modifies this`trees, this`haveTree, this`last, this`cachePhysical, this`misplaced, file
      ensures Valid() && Synced()
      ensures Streak(file.replies) >= Streak(old(file.replies)) - 1 && (Willing(old(file.replies)) ==> Willing(file.replies))
      ensures old(Streak(file.replies) > 0) ==> haveTree
      ensures haveTree ==> trees == map[curNo := EMPTY_TREE]
      ensures old(WithinCapacity()) ==> WithinCapacity()
    {
      trees, haveTree, last, cachePhysical, misplaced := map[], false, 0, 0, false;
      file.Reopen();
      if file.open {
        trees, haveTree := map[curNo := EMPTY_TREE], true;
      }
      CoherentEmpty(sources, file.bytes, curNo);
      hide Coherent;
    }

    /** What the file holds where the entry for the position says, if the file does
        what it is asked. The offset is moved only if the recorded one is another. */
    function FileHit(size: nat): Option<seq<byte>>
      reads this`trees, this`haveTree, this`readLogical, this`cachePhysical, file
    {
      var e := if haveTree && curNo in trees then Covering(trees[curNo].root, readLogical) else None;
      if e.None? then None else HitAt(e.value, size)
    }

    function HitAt(e: Entry, size: nat): Option<seq<byte>>
      reads this`readLogical, this`cachePhysical, file
    {
      var target := e.physical + (readLogical - e.logical);
      var moved := target != cachePhysical;
      var at, r := if moved then target else file.pos, First(if moved then Rest(file.replies) else file.replies);
      if 0 <= target && at < |file.bytes| && (moved ==> First(file.replies).Works?) && r.Works? then
        var n := Min(Min(Max(r.n, 1), Min(size, e.size - (readLogical - e.logical))), |file.bytes| - at);
        if n > 0 then Some(file.bytes[at..at + n]) else None
      else None
    }

    /** Read the file where the entry says the position is (lines 879-894). */
    method ReadEntry(e: Entry, size: nat) returns (ret: int, bytes: seq<byte>)
      requires Valid() && haveTree && size > 0
      requires Covering(trees[curNo].root, readLogical) == Some(e)
      modifies this`cachePhysical, file`pos, file`replies
      ensures ret >= 0 ==> Valid()
      ensures ret < 0 ==> bytes == []
      ensures ret >= 0 ==> ret <= size && |bytes| == ret
      ensures ret >= 0 && !misplaced ==> ret > 0 && Matches(inner.data, readLogical, bytes)
      ensures old(HitAt(e, size)).Some? ==> ret >= 0 && bytes == old(HitAt(e, size)).value
      ensures Streak(file.replies) >= Streak(old(file.replies)) - 2 && (Willing(old(file.replies)) ==> Willing(file.replies))
      ensures ret >= 0 && old(Synced()) ==> Synced()
      ensures old(!misplaced && Streak(file.replies) >= 2) ==> ret >= 0
    {
      hide Coherent, Matches, EntryStored, Covering, Streak, Willing;
      var block := readLogical - e.logical;
      var target := e.physical + block;
      if !misplaced {
        StoredAt(e);
      }
      bytes := [];
      ret := MoveFile(target);
      if ret >= 0 {
        cachePhysical := ret;
        var toCopy := Min(size, e.size - block);
        ret, bytes := file.Read(Max(toCopy, 0));
        if ret >= 0 {
          cachePhysical := cachePhysical + ret;
          if !misplaced {
            HitOk(e, toCopy, ret);
          }
        }
      }
    }

    /** The offset of the file is moved unless it is recorded to be there. */
    method MoveFile(target: int) returns (ret: int)
      modifies file`pos, file`replies
      ensures var moved, r := target != cachePhysical, First(old(file.replies));
        && (ret >= 0 <==> target >= 0 && (moved ==> r.Works?)) && (ret >= 0 ==> ret == target)
        && file.pos == (if moved && ret >= 0 then target else old(file.pos))
        && file.replies == (if moved then Rest(old(file.replies)) else old(file.replies))
        && Streak(file.replies) >= Streak(old(file.replies)) - (if moved then 1 else 0)
    {
      ret := cachePhysical;
      if cachePhysical != target {
        ret := file.Lseek(target);
      }
    }

    /** The first `n` of `all` bytes that an entry holds from the position on. */
    lemma HitOk(e: Entry, all: nat, n: nat)
      requires curNo in sources && EntryStored(sources[curNo], file.bytes, last, e) && sources[curNo] == inner.data
      requires e.logical <= readLogical && readLogical - e.logical + all <= e.size && n <= all
      ensures var target := e.physical + (readLogical - e.logical);
        0 <= target && target + all <= |file.bytes| && Matches(inner.data, readLogical, file.bytes[target..target + n])
    {
      hide EntryStored;
      var target := e.physical + (readLogical - e.logical);
      CachedBytes(inner.data, file.bytes, last, e, readLogical, all);
      SliceSlice(file.bytes, target, target + all, 0, n);
      MatchesSlice(inner.data, readLogical, file.bytes[target..target + all], 0, n);
      hide Matches;
    }

    lemma StoredAt(e: Entry)
      requires curNo in sources && curNo in trees && Coherent(sources, file.bytes, last, trees)
      requires Covering(trees[curNo].root, readLogical) == Some(e)
      ensures EntryStored(sources[curNo], file.bytes, last, e) && e.logical <= readLogical < e.logical + e.size
      ensures last > 0 && 0 <= e.physical
    {
      assert TreeOk(sources[curNo], file.bytes, last, trees[curNo].root);
      CoveringSpec(trees[curNo].root, readLogical, e);
      hide Covering, Ordered, Balanced, LogicallyDisjoint, PhysicallyDisjoint, Elems;
    }

    /** An entry begins there. */
    ghost predicate StartsAt(pos: int)
      requires curNo in trees
      reads this
    {
      HasKey(Elems(trees[curNo].root), pos)
    }

    /** The first half of ijkio_cache_sync_read: look for the byte at the
        position in the file. Without a hit, `room` bytes may be added to the
        index; the position behind is noted before the index may be wiped. */
    method ReadCached(size: nat) returns (hit: bool, ret: int, bytes: seq<byte>, room: nat)
      requires Valid() && size > 0
      modifies this`trees, this`haveTree, this`last, this`cachePhysical, this`misplaced, file
      ensures Valid() && (misplaced ==> old(misplaced))
      ensures Steady(old(Synced()), old(lostRewinds), old(file.replies), 3)
      ensures 0 < room <= size
      ensures hit ==> 0 <= ret <= size && |bytes| == ret
      ensures hit ==> misplaced == old(misplaced) && haveTree && trees == old(trees)
      ensures !hit && room < size && old(!misplaced && haveTree) ==> old(StartsAt(readLogical + room))
      ensures old(!misplaced && Indexed(readLogical) && Streak(file.replies) >= 2) ==> hit
      ensures !hit && file.open && Displaced() ==> old(Displaced())
      ensures hit && !misplaced ==> ret > 0 && Matches(inner.data, readLogical, bytes)
      ensures !hit && haveTree && !misplaced ==> Gap(Elems(trees[curNo].root), readLogical, room)
      ensures old(!haveTree || Covering(trees[curNo].root, readLogical).None?) ==>
        !hit && haveTree == old(haveTree) && trees == old(trees) && last == old(last) && cachePhysical == old(cachePhysical) &&
        misplaced == old(misplaced) && unchanged(file)
      ensures old(FileHit(size)).Some? ==> hit && bytes == old(FileHit(size)).value
      ensures old(WithinCapacity()) ==> WithinCapacity()
    {
      hide Coherent, Matches, Gap, Elems, Find, HasKey, HitAt, Streak, Willing;
      var e, slots := None, Slots(None, None);
      if haveTree {
        var found := Find(trees[curNo].root, readLogical, slots);
        e, slots := found.0, found.1;
      }
      if e.None? {
        e := slots.prev;
      }
      room := size;
      if haveTree && !misplaced {
        NextStarts(slots);
      }
      if slots.succ.Some? && slots.succ.value.logical > readLogical {
        room := Min(size, slots.succ.value.logical - readLogical);
      }
      if e.Some? && readLogical - e.value.logical < e.value.size && e.value.logical <= readLogical {
        ret, bytes := ReadEntry(e.value, size);
        if ret >= 0 {
          return true, ret, bytes, room;
        }
        Recreate();
        NothingIndexed(readLogical, room);
      } else if haveTree && !misplaced {
        UncachedGap(room);
      }
      return false, 0, [], room;
    }

    lemma NextStarts(slots: Slots)
      requires curNo in sources && curNo in trees && Coherent(sources, file.bytes, last, trees)
      requires slots == Find(trees[curNo].root, readLogical, Slots(None, None)).1
      ensures slots.succ.Some? ==> StartsAt(slots.succ.value.logical)
    {
      assert TreeOk(sources[curNo], file.bytes, last, trees[curNo].root);
      FindSpec(trees[curNo].root, readLogical, Slots(None, None));
      hide Elems, Ordered;
    }

    static lemma NothingIndexed(pos: int, len: int)
      ensures Gap(Elems(Nil), pos, len) && !HasKey(Elems(Nil), pos)
    {
    }

    lemma UncachedGap(room: nat)
      requires curNo in sources && curNo in trees && Coherent(sources, file.bytes, last, trees)
      requires Covering(trees[curNo].root, readLogical).None? && room > 0
      requires var next := Behind(trees[curNo].root, readLogical);
        next.Some? && next.value.logical > readLogical ==> room <= next.value.logical - readLogical
      ensures Gap(Elems(trees[curNo].root), readLogical, room)
    {
      var t := trees[curNo].root;
      assert TreeOk(sources[curNo], file.bytes, last, t);
      NearestSpec(t, readLogical);
      forall e | e in Elems(t)
        ensures 0 <= e.size
      {
        assert EntryStored(sources[curNo], file.bytes, last, e);
      }
      GapAt(t, readLogical, room);
    }

    /** ijkio_cache_io_open of an inner URL whose opening was put off. */
    method OpenInner() returns (ret: int)
      requires Valid()
      modifies inner`opens, inner`faults, inner`claims, this`logicalSize, this`trees, this`asyncOpen
      ensures Valid() && ret <= 0 && ret != AVERROR_EOF
      ensures ret == 0 ==> !asyncOpen
      ensures inner.faults == old(inner.faults) + (if ret < 0 then [ret] else [])
      ensures ClaimedSize(old(logicalSize), old(inner.claims), logicalSize, inner.claims)
      ensures haveTree ==> trees[curNo].root == old(trees[curNo].root)
    {
      var size;
      ret, size := inner.Open();
      if ret == 0 {
        logicalSize := size;
        asyncOpen := false;
        if haveTree {
          var info := trees[curNo].(fileSize := logicalSize);
          if !misplaced {
            FileSizeOk(info);
          }
          trees := trees[curNo := info];
        }
      }
      hide Coherent;
    }

    /** How many operations of the inner source a miss takes: it is moved if it does
        not stand at the position. */
    function Moves(): nat
      reads this`readLogical, this`readInner
    {
      if readInner != readLogical then 2 else 1
    }

    /** The inner source will be moved to the position if need be, and then deliver. */
    predicate Delivers()
      reads this`readLogical, this`readInner, this`logicalSize, this`asyncOpen, inner
    {
      && readLogical < logicalSize && readLogical < |inner.data| && !asyncOpen
      && |inner.replies| >= Moves() && forall i :: 0 <= i < Moves() ==> inner.replies[i].Deliver?
    }

    predicate Keeps()
      reads this`haveTree, file`open
    {
      file.open && haveTree && !onlyRead
    }

    /** The codes with which operations of the inner source failed since. */
    twostate function Faults(): seq<int>
      reads inner
    {
      if |old(inner.faults)| <= |inner.faults| then inner.faults[|old(inner.faults)|..] else []
    }

    /** Open and move the inner source if need be, and read from it. */
    method ReadInner(room: nat) returns (ret: int, bytes: seq<byte>)
      requires Valid() && room > 0
      modifies this`trees, this`readInner, this`logicalSize, this`asyncOpen, inner
      ensures Valid() && inner.faults == old(inner.faults) + Faults()
      ensures ClaimedSize(old(logicalSize), old(inner.claims), logicalSize, inner.claims)
      ensures haveTree ==> trees[curNo].root == old(trees[curNo].root)
      ensures PlainRead(inner.data, old(logicalSize), readLogical, room, Faults(), ret, bytes)
      ensures old(Delivers()) ==>
        && ret == Min(Min(Max(old(inner.replies)[old(Moves()) - 1].n, 1), room), |inner.data| - readLogical)
        && inner.replies == old(inner.replies)[old(Moves())..] && readInner == readLogical + ret
        && trees == old(trees) && !asyncOpen && logicalSize == old(logicalSize)
    {
      hide Coherent, Matches;
      MatchesEmpty(inner.data, readLogical);
      if readLogical >= logicalSize { return 0, []; }
      if asyncOpen {
        ret := OpenInner();
        if ret != 0 { return ret, []; }
      }
      ret := MoveInner();
      if ret < 0 { return ret, []; }
      ret, bytes := inner.Read(room);
      if ret <= 0 { return; }
      readInner := readInner + ret;
    }

    /** Move the inner source to the position if it stands elsewhere. */
    method MoveInner() returns (ret: int)
      requires Valid()
      modifies this`readInner, inner
      ensures Valid()
      ensures ret >= 0 <==> old(readInner) == readLogical || NextOf(old(inner.replies)).Deliver?
      ensures if ret >= 0 then readInner == readLogical == inner.pos && inner.faults == old(inner.faults)
              else inner.faults == old(inner.faults) + [ret] && ret != AVERROR_EOF
      ensures inner.replies == (if old(readInner) == readLogical then old(inner.replies) else RestOf(old(inner.replies)))
      ensures inner.claims == old(inner.claims)
    {
      hide Coherent;
      ret := 0;
      if readInner != readLogical {
        ret := inner.Seek(readLogical);
        if ret < 0 { return; }
        readInner := ret;
      }
    }

    /** The second half of ijkio_cache_sync_read: read from the inner source and
        keep what was read. */
    method ReadThrough(room: nat) returns (ret: int, bytes: seq<byte>)
      requires Valid() && room > 0
      requires haveTree && !misplaced ==> Gap(Elems(trees[curNo].root), readLogical, room)
      modifies this`trees, this`last, this`cachePhysical, this`misplaced, this`lostRewinds, this`readInner,
               this`logicalSize, this`asyncOpen, inner, file
      ensures Valid()
      ensures Steady(old(Synced()), old(lostRewinds), old(file.replies), 3)
      ensures inner.faults == old(inner.faults) + Faults()
      ensures ClaimedSize(old(logicalSize), old(inner.claims), logicalSize, inner.claims)
      ensures PlainRead(inner.data, old(logicalSize), readLogical, room, Faults(), ret, bytes)
      ensures misplaced && !old(misplaced) ==> old(Displaced() && file.open)
      ensures !misplaced && old(!misplaced && WithinCapacity()) ==> WithinCapacity()
      ensures old(Delivers()) ==>
        && ret == Min(Min(Max(old(inner.replies)[old(Moves()) - 1].n, 1), room), |inner.data| - readLogical)
        && inner.replies == old(inner.replies)[old(Moves())..] && readInner == readLogical + ret
        && !asyncOpen && logicalSize == old(logicalSize)
      ensures old(file.open) ==> file.open
      ensures old(Delivers() && Keeps()) ==> Kept(readLogical, bytes)
      ensures old(Keeps() && Synced() && Obliging(3) && Fits(room) && !StartsAt(readLogical)) && ret > 0 ==> Indexed(readLogical)
      ensures old(Delivers() && Keeps() && !misplaced) ==> (misplaced <==> old(GoesAstray(|bytes|)))
    {
      hide Coherent, Gap, Elems, Matches, Added, WriteAt, Covering, HasKey;
      ret, bytes := ReadInner(room);
      if ret > 0 && file.open && haveTree && !onlyRead {
        if !misplaced {
          GapShrink(Elems(trees[curNo].root), readLogical, room, ret);
        }
        var _ := SyncAddEntry(bytes);
      }
    }

    static lemma GapShrink(entries: set<Entry>, pos: int, len: int, n: int)
      requires Gap(entries, pos, len) && n <= len
      ensures Gap(entries, pos, n)
    {
    }

    /** Nothing is misplaced, or the position is not in the index. */
    ghost predicate Sure()
      reads this
    {
      !misplaced || !haveTree || (curNo in trees && Covering(trees[curNo].root, readLogical).None?)
    }

    predicate Indexed(pos: int)
      reads this`trees, this`haveTree
    {
      haveTree && curNo in trees && Covering(trees[curNo].root, pos).Some?
    }

    /** The next `n` operations on the file work, and none that works moves nothing. */
    predicate Obliging(n: nat)
      reads file`replies
    {
      Streak(file.replies) >= n && Willing(file.replies)
    }

    /** What a read gives will be in the index: the file does what it is asked and has
        room, and no empty entry is in the way. */
    ghost predicate Stores(size: int)
      reads this, file
    {
      && Keeps() && Synced() && Obliging(OPERATIONS) && size > 0 && Fits(size)
      && curNo in trees && (Indexed(readLogical) || !StartsAt(readLogical))
    }

    /** ijkio_cache_sync_read, when something is asked for. */
    method SyncRead(size: nat) returns (ret: int, bytes: seq<byte>)
      requires Valid() && size > 0
      modifies this`trees, this`haveTree, this`last, this`cachePhysical, this`misplaced, this`lostRewinds, this`readInner,
               this`logicalSize, this`asyncOpen, inner, file
      ensures Valid() && inner.faults == old(inner.faults) + Faults()
      ensures ClaimedSize(old(logicalSize), old(inner.claims), logicalSize, inner.claims)
      ensures old(Sure()) ==> PlainRead(inner.data, old(logicalSize), readLogical, size, Faults(), ret, bytes)
      ensures !misplaced && old(!misplaced && WithinCapacity()) ==> WithinCapacity()
      ensures Steady(old(Synced()), old(lostRewinds), old(file.replies), OPERATIONS)
      ensures misplaced && !old(misplaced) ==> old(Displaced() && file.open)
      ensures old(Misses(size) && !misplaced) ==>
        && ret > 0 && Kept(readLogical, bytes) && (misplaced <==> old(GoesAstray(|bytes|)))
        && inner.replies == old(inner.replies)[old(Moves())..] && readInner == readLogical + ret && !asyncOpen
        && logicalSize == old(logicalSize) && haveTree && file.open
      ensures old(FileHit(size)).Some? ==> bytes == old(FileHit(size)).value
      ensures old(Stores(size)) && ret > 0 ==> Indexed(readLogical)
    {
      hide Coherent, Gap, Elems, Matches, Covering, Added, WriteAt, HasKey;
      var hit, room;
      hit, ret, bytes, room := ReadCached(size);
      if !hit {
        ret, bytes := ReadThrough(room);
      }
    }

    /** ijkio_cache_read. The caller gets what a read of the plain source at its
        position gives, whatever the cache file and its index go through, unless
        bytes were misplaced before and the index has some for the position. */
    method Read(size: int) returns (ret: int, bytes: seq<byte>)
      requires Valid()
      modifies this, inner, file
      ensures Valid()
      ensures inner.faults == old(inner.faults) + Faults()
      ensures ClaimedSize(old(logicalSize), old(inner.claims), logicalSize, inner.claims)
      ensures old(Sure()) ==> PlainRead(inner.data, old(logicalSize), old(readLogical), size, Faults(), ret, bytes)
      ensures readLogical == old(readLogical) + Max(ret, 0)
      ensures !misplaced && old(!misplaced && WithinCapacity()) ==> WithinCapacity()
      ensures Steady(old(Synced()), old(lostRewinds), old(file.replies), OPERATIONS)
      ensures misplaced && !old(misplaced) ==> old(Displaced() && file.open)
      ensures old(Misses(size) && !misplaced) ==>
                ret > 0 && Kept(old(readLogical), bytes) && (misplaced <==> old(GoesAstray(|bytes|))) &&
                inner.replies == old(inner.replies)[old(Moves())..] && readInner == readLogical && !asyncOpen &&
                logicalSize == old(logicalSize) && haveTree && file.open
      ensures size > 0 && old(FileHit(size)).Some? ==> bytes == old(FileHit(size)).value
      ensures old(Stores(size)) && ret > 0 ==> Indexed(old(readLogical))
    {
      MatchesEmpty(inner.data, readLogical);
      if size <= 0 { return size, []; }
      hide Coherent, Gap, Elems, Matches, Covering, Added, WriteAt, HasKey, PlainRead, ClaimedSize, Streak, Willing, Synced, HitAt, Delivers;
      ret, bytes := SyncRead(size);
      readLogical := readLogical + Max(ret, 0);
    }

    /** The position is not in the index, and the inner source will deliver. */
    predicate Misses(size: int)
      reads this`trees, this`haveTree, this`readLogical, this`readInner, this`logicalSize, this`asyncOpen, inner, file`open
    {
      && size > 0 && Delivers() && Keeps() && curNo in trees && Covering(trees[curNo].root, readLogical).None?
    }

    /** ijkio_cache_seek. */
    method Seek(pos: int, whence: Whence) returns (ret: int)
      requires Valid()
      modifies this`readLogical
      ensures Valid()
      ensures ret == SeekResult(old(readLogical), whence, pos, logicalSize)
      ensures readLogical == if whence.Size? || ret < 0 then old(readLogical) else ret
    {
      hide Coherent;
      var target;
      match whence {
        case Size => return logicalSize;
        case Cur => target := pos + readLogical;
        case Set => target := pos;
        case Other => return AVERROR_EINVAL;
      }
      if target < 0 { return AVERROR_EINVAL; }
      readLogical := target;
      return target;
    }

    /** What matters of a state between two calls. */
    ghost function Shot(): Snap
      reads this, inner, file
    {
      Snap(readLogical, Synced(), misplaced, Sure(), lostRewinds, Streak(file.replies), WithinCapacity(), inner.faults, logicalSize, inner.claims)
    }

    lemma ShotOk()
      ensures ClaimedSize(logicalSize, inner.claims, logicalSize, inner.claims)
      ensures (Synced() ==> !misplaced && !(file.open && Displaced())) && (!misplaced ==> Sure())
    {
    }

    /** One call, and the states it lies between. */
    method OneCall(call: Call) returns (ev: Event)
      requires Valid()
      modifies this, inner, file
      ensures Valid() && Linked(inner.data, old(Shot()), call, ev, Shot())
    {
      hide Coherent, Matches, PlainRead, ClaimedSize, Covering, Streak, Willing, Synced, Sure, WithinCapacity, Misses, Stores, FileHit;
      ShotOk();
      var limit, known := logicalSize, |inner.faults|;
      match call {
        case DoRead(size) =>
          var ret, bytes := Read(size);
          ev := DidRead(limit, inner.faults[known..], ret, bytes);
        case DoSeek(pos, whence) =>
          var ret := Seek(pos, whence);
          ev := DidSeek(limit, ret);
      }
    }

    /** A caller that makes any sequence of calls; `snaps` are the states in between.
        As long as no flush fails to rewind the file, whatever else fails, all calls
        are answered as by the plain source. */
    method Session(calls: seq<Call>) returns (events: seq<Event>, ghost snaps: seq<Snap>)
      requires Valid()
      modifies this, inner, file
      ensures Valid() && IsTrace(inner.data, snaps, calls, events)
      ensures snaps[0] == old(Shot()) && snaps[|calls|] == Shot()
      ensures old(Synced()) && lostRewinds == old(lostRewinds) ==>
        && Synced() && IsPlainRun(inner.data, old(readLogical), calls, events, readLogical)
        && (old(WithinCapacity()) ==> WithinCapacity())
      ensures Streak(old(file.replies)) >= OPERATIONS * |calls| ==> lostRewinds == old(lostRewinds)
    {
      events, snaps := [], [Shot()];
      for i := 0 to |calls|
        invariant Valid() && |snaps| == i + 1 && snaps[0] == old(Shot()) && snaps[i] == Shot()
        invariant IsTrace(inner.data, snaps, calls[..i], events)
      {
        hide Linked, IsTrace, Valid, Shot;
        var ev := OneCall(calls[i]);
        TraceExtend(inner.data, snaps, calls[..i], events, calls[i], ev, Shot());
        events, snaps := events + [ev], snaps + [Shot()];
        assert calls[..i + 1] == calls[..i] + [calls[i]];
      }
      assert calls[..|calls|] == calls;
      hide IsTrace, IsPlainRun, Coherent;
      if old(Synced()) && lostRewinds == old(lostRewinds) {
        TraceIsPlain(inner.data, snaps, calls, events);
      }
      if Streak(old(file.replies)) >= OPERATIONS * |calls| {
        TraceLosesNothing(inner.data, snaps, calls, events);
      }
    }
  }
}
