/** The cache file: its bytes, its offset, and what the file system may do. */
module CacheStorage {
  import opened Common
  import opened AvlTree
  import opened CacheIndex

  const FILE_RW_ERROR := -100

  /** What the file system decides about one operation: it works, moving at most
      `n` bytes, or it fails. */
  datatype FileReply = Works(n: nat) | Breaks

  /** No operation that works moves nothing. */
  predicate Willing(replies: seq<FileReply>) {
    forall i :: 0 <= i < |replies| && replies[i].Works? ==> replies[i].n > 0
  }

  function First(replies: seq<FileReply>): (r: FileReply)
    ensures Willing(replies) && r.Works? ==> r.n > 0
  {
    if replies == [] then Breaks else replies[0]
  }

  function Rest(replies: seq<FileReply>): (rest: seq<FileReply>)
    ensures Willing(replies) ==> Willing(rest)
  {
    if replies == [] then [] else replies[1..]
  }

  /** How many operations work before one may fail. */
  function Streak(replies: seq<FileReply>): (n: nat)
    ensures n > 0 <==> First(replies).Works?
  {
    if First(replies).Breaks? then 0 else 1 + Streak(Rest(replies))
  }

  /** An open file and its offset. The replies of the file system are fixed in
      advance and arbitrary; when they are used up, every operation fails. */
  class CacheFile {
    var bytes: seq<byte>
    var pos: nat
    var open: bool
    var replies: seq<FileReply>

    constructor (bytes: seq<byte>, pos: nat, replies: seq<FileReply>)
      ensures this.bytes == bytes && this.pos == pos && this.open && this.replies == replies
    {
      this.bytes, this.pos, this.open, this.replies := bytes, pos, true, replies;
    }

    method NextReply() returns (r: FileReply)
      modifies this`replies
      ensures r == First(old(replies)) && replies == Rest(old(replies))
      ensures Streak(replies) >= Streak(old(replies)) - 1
    {
      r, replies := First(replies), Rest(replies);
    }

    method Lseek(target: int) returns (ret: int)
      modifies this`pos, this`replies
      ensures if ret >= 0 then ret == target == pos else pos == old(pos)
      ensures ret >= 0 <==> First(old(replies)).Works? && target >= 0
      ensures replies == Rest(old(replies)) && Streak(replies) >= Streak(old(replies)) - 1
    {
      var r := NextReply();
      if r.Breaks? || target < 0 { return -1; }
      pos := target;
      ret := target;
    }

    method Read(len: nat) returns (ret: int, data: seq<byte>)
      modifies this`pos, this`replies
      ensures if ret >= 0 then |data| == ret <= len && pos == old(pos) + ret else data == [] && pos == old(pos)
      ensures |data| > 0 ==> pos <= |bytes| && data == bytes[old(pos)..pos]
      ensures ret == 0 && len > 0 ==> old(pos) >= |bytes|
      ensures var r := First(old(replies));
        ret == if r.Breaks? then -1 else if old(pos) >= |bytes| then 0 else Min(Min(Max(r.n, 1), len), |bytes| - old(pos))
      ensures replies == Rest(old(replies)) && Streak(replies) >= Streak(old(replies)) - 1
    {
      var r := NextReply();
      if r.Breaks? { return -1, []; }
      ret := if pos >= |bytes| then 0 else Min(Min(Max(r.n, 1), len), |bytes| - pos);
      data := if ret == 0 then [] else bytes[pos..pos + ret];
      pos := pos + ret;
    }

    /** A write may be short, and may even write nothing. */
    method Write(data: seq<byte>) returns (ret: int)
      modifies this`bytes, this`pos, this`replies
      ensures if ret >= 0 then ret <= |data| && bytes == WriteAt(old(bytes), old(pos), data[..ret]) && pos == old(pos) + ret
              else bytes == old(bytes) && pos == old(pos)
      ensures var r := First(old(replies)); ret == if r.Works? then Min(r.n, |data|) else -1
      ensures replies == Rest(old(replies)) && Streak(replies) >= Streak(old(replies)) - 1
    {
      var r := NextReply();
      if r.Breaks? { return -1; }
      ret := Min(r.n, |data|);
      bytes := WriteAt(bytes, pos, data[..ret]);
      pos := pos + ret;
    }

    /** close, and open with O_CREAT and O_TRUNC. */
    method Reopen()
      modifies this
      ensures open ==> bytes == [] && pos == 0
      ensures !open ==> bytes == old(bytes)
      ensures open == First(old(replies)).Works?
      ensures replies == Rest(old(replies)) && Streak(replies) >= Streak(old(replies)) - 1
    {
      var r := NextReply();
      open := r.Works?;
      if open {
        bytes, pos := [], 0;
      }
    }
  }

  /** A write behind the end fills the hole with zeros. */
  function WriteAt(file: seq<byte>, pos: nat, data: seq<byte>): (f: seq<byte>)
    ensures pos <= |file| ==> f == Overwrite(file, pos, data) && |f| == Max(|file|, pos + |data|)
    ensures data == [] ==> f == file
  {
    if data == [] then file
    else Overwrite(if pos <= |file| then file else file + seq(pos - |file|, i => 0), pos, data)
  }

  /** What a read of the file at offset `k` gives once the file reaches that far. */
  function ByteAt(file: seq<byte>, k: nat): byte {
    if k < |file| then file[k] else 0
  }

  function Back(k: int, n: int): int {
    k - n
  }

  /** The file began like the data, and the rest of the data repeats with period `at`. */
  predicate FrontRepeats(file: seq<byte>, at: nat, data: seq<byte>) {
    && (forall k :: 0 <= k < Min(at, |data|) ==> ByteAt(file, k) == data[k])
    && (forall k :: at <= k < |data| ==> data[k] == data[Back(k, at)])
  }

  lemma WrittenByte(file: seq<byte>, at: nat, data: seq<byte>, k: nat)
    requires k < |data|
    ensures |WriteAt(file, at, data)| >= at + |data|
    ensures WriteAt(file, at, data)[k] == if k < at then ByteAt(file, k) else data[Back(k, at)]
  {
    var whole := if at <= |file| then file else file + seq(at - |file|, i => 0);
    assert Overwrite(whole, at, data)[k] == (whole[..at] + data + whole[Min(at + |data|, |whole|)..])[k];
  }

  /** Data that went to offset `at` while the index says that it is in front: the
      entry is right exactly when the front happens to read like the data. */
  lemma MisplacedWrite(src: seq<byte>, file: seq<byte>, at: nat, pos: nat, data: seq<byte>)
    requires |data| > 0 && Matches(src, pos, data)
    ensures EntryStored(src, WriteAt(file, at, data), |data|, Entry(pos, 0, |data|)) <==> FrontRepeats(file, at, data)
  {
    var file' := WriteAt(file, at, data);
    forall k | 0 <= k < |data|
      ensures k < |file'| && file'[k] == if k < at then ByteAt(file, k) else data[Back(k, at)]
    {
      WrittenByte(file, at, data, k);
    }
    hide WriteAt, ByteAt;
    var front := file'[0..|data|];
    if front == data {
      forall k | 0 <= k < |data|
        ensures file'[k] == data[k]
      {
        assert front[k] == data[k];
      }
    }
  }
}
