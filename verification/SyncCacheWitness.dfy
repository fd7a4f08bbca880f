/** A run of the read-through cache in which it delivers a wrong byte. */
module SyncCacheWitness {
  import opened Common
  import opened AvlTree
  import opened CacheIndex
  import opened CacheStorage
  import opened Source
  import opened SyncCache

  const EMPTY_INDEX: map<int, TreeInfo> := map[0 := EMPTY_TREE]

  lemma OneEntry(pos: int)
    ensures 0 in Added(EMPTY_INDEX, 0, pos, 0, 1)
    ensures Added(EMPTY_INDEX, 0, pos, 0, 1)[0].root == Node(Nil, Entry(pos, 0, 1), 0, Nil)
  {
    assert Index(Nil, pos, 0, 1) == Node(Nil, Entry(pos, 0, 1), 0, Nil);
  }

  lemma OneCovered(e: Entry, pos: int)
    ensures Covering(Nil, pos) == None
    ensures pos < e.logical ==> Covering(Node(Nil, e, 0, Nil), pos) == None
    ensures e.logical == pos && e.size == 1 ==> Covering(Node(Nil, e, 0, Nil), pos) == Some(e)
  {
    if pos < e.logical {
      assert Find(Node(Nil, e, 0, Nil), pos, Slots(None, None)) == Find(Nil, pos, Slots(None, Some(e)));
    }
  }

  /** The cache of a source of two bytes, with room for two. */
  ghost predicate Small(cache: Cache)
    reads cache, cache.inner, cache.file
  {
    && cache.Valid() && cache.file.open && cache.haveTree && !cache.onlyRead && !cache.shared && !cache.asyncOpen
    && cache.maxCapacity == cache.logicalSize == 2 && cache.inner.data == [1, 2] && cache.curNo == 0
    && forall i :: 0 <= i < |cache.inner.replies| ==> cache.inner.replies[i] == Deliver(1)
  }

  /** A read of one byte that is not in the index; the file takes it, or a flush
      cannot rewind the file. */
  method Fetch(cache: Cache, pos: nat) returns (bytes: seq<byte>)
    requires Small(cache) && !cache.misplaced && pos < 2 && cache.readInner != pos && |cache.inner.replies| >= 2
    requires 0 in cache.trees && Covering(cache.trees[0].root, pos).None?
    requires (cache.InPlace(1) && First(cache.file.replies) == Works(1)) || cache.FlushFails(1)
    modifies cache, cache.inner, cache.file
    ensures Small(cache) && |cache.inner.replies| == |old(cache.inner.replies)| - 2 && cache.readInner == pos + 1
    ensures bytes == [cache.inner.data[pos]] && cache.file.replies == Rest(old(cache.file.replies))
    ensures if old(cache.FlushFails(1)) then
              && !cache.misplaced && cache.trees == EMPTY_INDEX && cache.last == cache.cachePhysical == 0
              && cache.file.bytes == old(cache.file.bytes) && cache.file.pos == old(cache.file.pos)
            else
              && cache.misplaced == (old(cache.file.pos) != old(cache.last))
              && cache.trees == Added(old(cache.trees), 0, pos, old(cache.last), 1)
              && cache.last == cache.cachePhysical == old(cache.last) + 1
              && cache.file.bytes == WriteAt(old(cache.file.bytes), old(cache.file.pos), bytes)
              && cache.file.pos == old(cache.file.pos) + 1
  {
    hide Coherent, Covering, Added, WriteAt;
    var _ := cache.Seek(pos, Set);
    var ret;
    ret, bytes := cache.Read(1);
    assert |bytes| == 1 && bytes[0] == cache.inner.data[pos];
    assert bytes[..1] == bytes;
  }

  /** The second byte of a two-byte source is cached. A flush fails to rewind the
      file, so that the first byte goes behind the second one while the index says
      that it is in front. The second byte is then read as the first. */
  method WrongByteAfterFailedRewind() returns (source: seq<byte>, bytes: seq<byte>)
    ensures source == [1, 2] && bytes == [2]
  {
    hide Covering, Added, Coherent, TreesStored, TreesApart, TotalSize, WriteAt;
    source := [1, 2];
    var inner := new Url(source, [Deliver(1), Deliver(1), Deliver(1), Deliver(1), Deliver(1), Deliver(1)], []);
    var file := new CacheFile([], 0, [Works(1), Breaks, Works(1), Works(0), Works(1)]);
    CoherentEmpty(map[0 := source], [], 0);
    var cache := new Cache(inner, file, map[0 := source], EMPTY_INDEX, 0, 0, 2, false, false, 2, false);
    Lookups();
    bytes := Fetch(cache, 1);
    assert file.bytes == [2] && cache.last == 1;
    bytes := Fetch(cache, 0);
    assert file.bytes == [2] && file.pos == 1 && cache.last == 0;
    bytes := Fetch(cache, 0);
    assert file.bytes == [2, 1] && cache.misplaced;
    bytes := Reread(cache);
  }

  /** A read of the first byte where the index says that it is. */
  method Reread(cache: Cache) returns (bytes: seq<byte>)
    requires Small(cache) && 0 in cache.trees && Covering(cache.trees[0].root, 0) == Some(Entry(0, 0, 1))
    requires |cache.file.bytes| == 2 && cache.cachePhysical == 1 && cache.file.replies == [Works(0), Works(1)]
    modifies cache, cache.inner, cache.file
    ensures bytes == [old(cache.file.bytes)[0]]
  {
    hide Coherent, Covering;
    var ret;
    ret := cache.Seek(0, Set);
    assert cache.FileHit(1) == Some(cache.file.bytes[0..1]);
    ret, bytes := cache.Read(1);
  }

  lemma Lookups()
    ensures 0 in Added(EMPTY_INDEX, 0, 1, 0, 1) && Covering(Added(EMPTY_INDEX, 0, 1, 0, 1)[0].root, 0).None?
    ensures 0 in Added(EMPTY_INDEX, 0, 0, 0, 1) && Covering(Added(EMPTY_INDEX, 0, 0, 0, 1)[0].root, 0) == Some(Entry(0, 0, 1))
    ensures Covering(EMPTY_INDEX[0].root, 0).None? && Covering(EMPTY_INDEX[0].root, 1).None?
    ensures WriteAt([], 0, [2]) == [2] && WriteAt([2], 1, [1]) == [2, 1]
  {
    OneEntry(1);
    OneEntry(0);
    OneCovered(Entry(1, 0, 1), 0);
    OneCovered(Entry(0, 0, 1), 0);
    OneCovered(Entry(0, 0, 1), 1);
    hide Covering, Added;
  }
}
