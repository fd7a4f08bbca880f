/** ijkavutil/ijkfifo.c: a circular byte buffer. */
module Fifo {
  import opened Common
  import opened Source

  const TWO_31 := 0x8000_0000
  const TWO_32 := 0x1_0000_0000
  const TWO_64 := 0x1_0000_0000_0000_0000

  /** An allocation of a 32-bit ABI has at most PTRDIFF_MAX bytes. */
  predicate Allocatable(n: nat) {
    n < TWO_31
  }

  predicate IsUint64(n: nat) {
    n < TWO_64
  }

  function Wrap(i: int, cap: int): int {
    if i >= cap then i - cap else i
  }

  /** `n` bytes of the circular buffer `b` from index `start` on. */
  function Window(b: seq<byte>, start: nat, n: nat): seq<byte>
    requires start <= |b| && n <= |b|
  {
    if start + n <= |b| then b[start..start + n] else b[start..] + b[..start + n - |b|]
  }

  /** `chunk` stored at index `w` without wrapping. */
  function Store(b: seq<byte>, w: nat, chunk: seq<byte>): seq<byte>
    requires w + |chunk| <= |b|
  {
    b[..w] + chunk + b[w + |chunk|..]
  }

  lemma StoreIs(b: seq<byte>, b': seq<byte>, w: nat, chunk: seq<byte>)
    requires w + |chunk| <= |b| == |b'|
    requires forall k :: 0 <= k < |b| ==> b'[k] == if w <= k < w + |chunk| then chunk[k - w] else b[k]
    ensures b' == Store(b, w, chunk)
  {
  }

  lemma StoreSlices(b: seq<byte>, w: nat, chunk: seq<byte>)
    requires w + |chunk| <= |b|
    ensures |Store(b, w, chunk)| == |b|
    ensures Store(b, w, chunk)[..w + |chunk|] == b[..w] + chunk
    ensures Store(b, w, chunk)[w + |chunk|..] == b[w + |chunk|..]
  {
  }

  lemma WindowStore(b: seq<byte>, start: nat, m: nat, chunk: seq<byte>)
    requires start < |b| && m + |chunk| <= |b|
    requires Wrap(start + m, |b|) + |chunk| <= |b|
    ensures |Store(b, Wrap(start + m, |b|), chunk)| == |b|
    ensures Window(Store(b, Wrap(start + m, |b|), chunk), start, m + |chunk|) == Window(b, start, m) + chunk
  {
    var w := Wrap(start + m, |b|);
    var e := w + |chunk|;
    StoreSlices(b, w, chunk);
    var s := Store(b, w, chunk);
    hide Store;
    if start + m < |b| {
      assert s[start..e] == s[..e][start..];
      assert (b[..w] + chunk)[start..] == b[..w][start..] + chunk;
      assert b[..w][start..] == b[start..w];
    } else {
      assert s[start..] == s[e..][start - e..];
      assert b[start..] == b[e..][start - e..];
      assert s[..e] == b[..w] + chunk;
      assert b[start..] + b[..w] + chunk == b[start..] + (b[..w] + chunk);
      assert start + m + |chunk| <= |b| ==> chunk == [] && m == |b| - start;
    }
  }

  lemma WindowRead(b: seq<byte>, start: nat, m: nat, off: nat, len: nat)
    requires start < |b| && m <= |b| && off + len <= m
    requires Wrap(start + off, |b|) + len <= |b|
    ensures b[Wrap(start + off, |b|)..Wrap(start + off, |b|) + len] == Window(b, start, m)[off..off + len]
  {
    if start + m <= |b| {
      if start + off < |b| {
        SliceSlice(b, start, start + m, off, off + len);
      }
    } else {
      var e := start + m - |b|;
      if start + off < |b| {
        assert (b[start..] + b[..e])[off..off + len] == b[start..][off..off + len];
        assert b[start..][off..off + len] == b[start + off..start + off + len];
      } else {
        var i := start + off - |b|;
        assert (b[start..] + b[..e])[off..off + len] == b[..e][i..i + len];
        assert b[..e][i..i + len] == b[i..i + len];
      }
    }
  }

  lemma WindowDrop(b: seq<byte>, start: nat, m: nat, k: nat)
    requires start < |b| && k <= m <= |b|
    ensures Window(b, Wrap(start + k, |b|), m - k) == Window(b, start, m)[k..]
  {
    if start + m <= |b| {
      if k < m || start + m < |b| {
        assert b[start..start + m][k..] == b[start + k..start + m];
      }
    } else if start + k < |b| {
      DropDrop(b, start, k);
      assert (b[start..] + b[..start + m - |b|])[k..] == b[start..][k..] + b[..start + m - |b|];
    } else {
      var e := start + m - |b|;
      assert (b[start..] + b[..e])[k..] == b[..e][start + k - |b|..];
      assert b[..e][start + k - |b|..] == b[start + k - |b|..e];
    }
  }

  /** The difference of the indices modulo 2^32, which survives the truncation
      of `wndx` to 32 bits and the growth of `rndx` to 64 bits. */
  function IndexDistance(wndx: nat, rndx: nat): nat {
    (wndx - rndx) % TWO_32
  }

  /** Conversion of an unsigned 32-bit number to int. */
  function ToInt32(u: nat): int {
    if u < TWO_31 then u else u - TWO_32
  }

  lemma ModCongruent(a: int, b: int, k: int)
    requires a == b + k * TWO_32
    ensures a % TWO_32 == b % TWO_32
  {
  }

  /** Truncation to 32 bits. */
  function Trunc(n: nat): (t: nat)
    ensures IsUint64(t)
  {
    n % TWO_32
  }

  lemma TruncAdd(a: nat, n: nat)
    ensures Trunc(Trunc(a) + n) == Trunc(a + n)
  {
    ModCongruent(a % TWO_32 + n, a + n, -(a / TWO_32));
  }

  lemma WriteDistance(wndx: nat, rndx: nat, n: nat, cap: nat)
    requires IndexDistance(wndx, rndx) + n <= cap && Allocatable(cap)
    ensures IndexDistance(Trunc(wndx + n), rndx) == IndexDistance(wndx, rndx) + n
  {
    ModCongruent((wndx + n) % TWO_32 - rndx, IndexDistance(wndx, rndx) + n,
      (wndx - rndx) / TWO_32 - (wndx + n) / TWO_32);
  }

  /** Unsigned 64-bit addition. */
  function Wrap64(n: nat): (t: nat)
    ensures IsUint64(t)
  {
    n % TWO_64
  }

  lemma DrainDistance(wndx: nat, rndx: nat, n: nat)
    requires n <= IndexDistance(wndx, rndx)
    ensures IndexDistance(wndx, Wrap64(rndx + n)) == IndexDistance(wndx, rndx) - n
  {
    var d := IndexDistance(wndx, rndx);
    ModCongruent(wndx - Wrap64(rndx + n), d - n,
      (wndx - rndx) / TWO_32 + (rndx + n) / TWO_64 * TWO_32);
  }

  /** Index updates of any run of writes and drains. */
  datatype IndexOp = Wrote(n: nat) | Drained(n: nat)

  function Occupancy(ops: seq<IndexOp>): int {
    if ops == [] then 0
    else var o := ops[|ops| - 1];
      Occupancy(ops[..|ops| - 1]) + (if o.Wrote? then o.n else 0 - o.n)
  }

  function Indices(ops: seq<IndexOp>): (i: (nat, nat))
    ensures IsUint64(i.0) && IsUint64(i.1)
  {
    if ops == [] then (0, 0)
    else
      var (w, r) := Indices(ops[..|ops| - 1]);
      match ops[|ops| - 1]
      case Wrote(n) => (Trunc(Trunc(w) + n), r)
      case Drained(n) => (w, Wrap64(r + n))
  }

  /** The size stays exact forever: however many bytes passed through a buffer
      that never held more than `cap`, the truncated indices tell how many are
      in it. */
  lemma {:induction false} IndicesExact(ops: seq<IndexOp>, cap: nat)
    requires Allocatable(cap)
    requires forall k :: 0 <= k <= |ops| ==> 0 <= Occupancy(ops[..k]) <= cap
    ensures IndexDistance(Indices(ops).0, Indices(ops).1) == Occupancy(ops)
  {
    assert ops[..|ops|] == ops;
    if ops != [] {
      var before := ops[..|ops| - 1];
      assert forall k :: 0 <= k <= |before| ==> before[..k] == ops[..k];
      IndicesExact(before, cap);
      var (w, r) := Indices(before);
      match ops[|ops| - 1]
      case Wrote(n) =>
        TruncAdd(w, n);
        WriteDistance(w, r, n, cap);
      case Drained(n) =>
        DrainDistance(w, r, n);
    }
  }

  class FifoBuffer {
    var buffer: array<byte>
    var rptr: nat
    var wptr: nat
    var rndx: nat
    var wndx: nat

    ghost predicate Valid()
      reads this
    {
      && Allocatable(buffer.Length) && IsUint64(wndx) && IsUint64(rndx)
      && IndexDistance(wndx, rndx) <= buffer.Length
      && (if buffer.Length == 0 then rptr == wptr == 0
          else rptr < buffer.Length && wptr == Wrap(rptr + IndexDistance(wndx, rndx), buffer.Length))
    }

    ghost function Contents(): (s: seq<byte>)
      requires Valid()
      reads this, buffer
      ensures |s| == IndexDistance(wndx, rndx)
    {
      Window(buffer[..], rptr, IndexDistance(wndx, rndx))
    }

    /** ijk_av_fifo_alloc */
    constructor (size: nat)
      requires Allocatable(size)
      ensures Valid() && fresh(buffer) && buffer.Length == size && Contents() == []
      ensures rptr == wptr == rndx == wndx == 0
    {
      buffer := new byte[size];
      rptr, wptr, rndx, wndx := 0, 0, 0, 0;
    }

    /** ijk_av_fifo_reset */
    method Reset()
      requires Valid()
      modifies this
      ensures Valid() && buffer == old(buffer) && Contents() == []
    {
      rptr, wptr, rndx, wndx := 0, 0, 0, 0;
    }

    /** ijk_av_fifo_size: the distance as an unsigned 32-bit number read as an int. */
    function Size(): (n: int)
      requires Valid()
      reads this
      ensures n == IndexDistance(wndx, rndx)
    {
      ToInt32(IndexDistance(wndx, rndx))
    }

    /** ijk_av_fifo_space */
    function Space(): (n: int)
      requires Valid()
      reads this
      ensures n == buffer.Length - IndexDistance(wndx, rndx) >= 0
    {
      buffer.Length - Size()
    }

    /** One chunk of a write: memcpy to `p`, the end of the first `m` bytes, and
        advance with wrap-around. */
    method PutChunk(p: nat, chunk: seq<byte>, ghost m: nat) returns (p': nat)
      requires (rptr < buffer.Length || rptr == buffer.Length == 0) && m + |chunk| <= buffer.Length && p == End(m) && p + |chunk| <= buffer.Length
      modifies buffer
      ensures p' == End(m + |chunk|)
      ensures Window(buffer[..], rptr, m + |chunk|) == old(Window(buffer[..], rptr, m)) + chunk
    {
      ghost var before := buffer[..];
      forall k | 0 <= k < |chunk| {
        buffer[p + k] := chunk[k];
      }
      StoreIs(before, buffer[..], p, chunk);
      hide Window, Store;
      if rptr < buffer.Length {
        WindowStore(before, rptr, m, chunk);
      }
      p' := p + |chunk|;
      if p' >= buffer.Length {
        p' := 0;
      }
    }

    /** The index behind the first `m` bytes. */
    ghost function End(m: nat): int
      reads this
    {
      if rptr < buffer.Length then Wrap(rptr + m, buffer.Length) else 0
    }

    /** ijk_av_fifo_generic_write without a callback. */
    method Write(src: seq<byte>) returns (written: int)
      requires Valid() && |src| <= Space()
      modifies this, buffer
      ensures Valid() && buffer == old(buffer) && rptr == old(rptr) && rndx == old(rndx)
      ensures Contents() == old(Contents()) + src && written == |src|
    {
      var size, rest := |src|, src;
      var w, p := Trunc(wndx), wptr;
      ghost var m := IndexDistance(wndx, rndx);
      ghost var put: seq<byte> := [];
      var first := true;
      hide IndexDistance, Window, Trunc, Allocatable, IsUint64;
      while first || size > 0
        invariant size == |rest| && (!first || put == []) && unchanged(this)
        invariant put + rest == src && p == End(m + |put|)
        invariant w == Trunc(wndx + |put|)
        invariant Window(buffer[..], rptr, m + |put|) == old(Contents()) + put
        decreases first, size
      {
        var len := Min(buffer.Length - p, size);
        ghost var chunk := rest[..len];
        p := PutChunk(p, rest[..len], m + |put|);
        assert old(Contents()) + put + chunk == old(Contents()) + (put + chunk);
        assert put + chunk + rest[len..] == src;
        rest := rest[len..];
        TruncAdd(wndx + |put|, len);
        w := Trunc(w + len);
        size := size - len;
        put := put + chunk;
        first := false;
      }
      assert put == src;
      WriteDistance(wndx, rndx, |src|, buffer.Length);
      wndx, wptr := w, p;
      written := |src| - size;
    }

    /** ijk_av_fifo_generic_write with a callback that reads from `url`. The
        bytes become visible only by the last assignment. */
    method WriteFrom(url: Url, size: nat) returns (written: int, lastRead: int)
      requires Valid() && size <= Space()
      modifies this, buffer, url
      ensures Valid() && buffer == old(buffer) && rptr == old(rptr) && rndx == old(rndx)
      ensures 0 <= written <= size && url.pos == old(url.pos) + written
      ensures |Contents()| == |old(Contents())| + written && old(Contents()) <= Contents()
      ensures Matches(url.data, old(url.pos), Contents()[|old(Contents())|..])
      ensures written < size ==> lastRead <= 0
      ensures size > 0 && (lastRead == 0 || lastRead == AVERROR_EOF) ==> url.pos >= |url.data|
    {
      var left := size;
      var w, p := Trunc(wndx), wptr;
      ghost var m := IndexDistance(wndx, rndx);
      ghost var put: seq<byte> := [];
      lastRead := 1;
      hide IndexDistance, Window, Trunc, Allocatable, IsUint64, Matches;
      MatchesEmpty(url.data, url.pos);
      var first := true;
      while first || left > 0
        invariant 0 <= left && left + |put| == size && (!first || put == []) && unchanged(this) && (first <==> lastRead == 1 && put == [])
        invariant url.pos == old(url.pos) + |put| && Matches(url.data, old(url.pos), put)
        invariant p == End(m + |put|) && w == Trunc(wndx + |put|)
        invariant Window(buffer[..], rptr, m + |put|) == old(Contents()) + put
        decreases first, left
      {
        first := false;
        var bytes;
        lastRead, bytes, p := FillChunk(url, p, left, m + |put|);
        if lastRead <= 0 {
          break;
        }
        MatchesConcat(url.data, old(url.pos), put, bytes);
        assert old(Contents()) + put + bytes == old(Contents()) + (put + bytes);
        TruncAdd(wndx + |put|, lastRead);
        w := Trunc(w + lastRead);
        left := left - lastRead;
        put := put + bytes;
      }
      WriteDistance(wndx, rndx, |put|, buffer.Length);
      wndx, wptr := w, p;
      written := size - left;
      assert Contents() == old(Contents()) + put;
    }

    /** One chunk of a write: the callback reads into `p`, the end of the first `m` bytes. */
    method FillChunk(url: Url, p: nat, left: nat, ghost m: nat) returns (lastRead: int, bytes: seq<byte>, p': nat)
      requires (rptr < buffer.Length || rptr == buffer.Length == 0) && m + left <= buffer.Length && p == End(m) <= buffer.Length
      modifies buffer, url
      ensures lastRead <= left && (left > 0 && p < buffer.Length && (lastRead == 0 || lastRead == AVERROR_EOF) ==> url.pos >= |url.data|)
      ensures |bytes| == Max(lastRead, 0) && url.pos == old(url.pos) + |bytes| && Matches(url.data, old(url.pos), bytes)
      ensures p' == End(m + |bytes|)
      ensures Window(buffer[..], rptr, m + |bytes|) == old(Window(buffer[..], rptr, m)) + bytes
    {
      var len := Min(buffer.Length - p, left);
      lastRead, bytes := url.Read(len);
      p' := p;
      if lastRead > 0 {
        p' := PutChunk(p, bytes, m);
      }
    }

    /** One chunk of a read, from index `r` of the buffer. */
    method GetChunk(r: nat, len: nat, ghost off: nat) returns (chunk: seq<byte>)
      requires Valid() && off + len <= |Contents()| && r + len <= buffer.Length
      requires len > 0 ==> r == Wrap(rptr + off, buffer.Length)
      ensures chunk == Contents()[off..off + len]
    {
      chunk := buffer[r..r + len];
      if len > 0 {
        WindowRead(buffer[..], rptr, IndexDistance(wndx, rndx), off, len);
      }
    }

    lemma InBounds()
      requires Valid()
      ensures rptr < buffer.Length || rptr == wptr == buffer.Length == |Contents()| == 0
      ensures |Contents()| <= buffer.Length
    {
    }

    lemma Append<T>(s: seq<T>, i: nat, j: nat)
      requires i + j <= |s|
      ensures s[..i] + s[i..i + j] == s[..i + j]
    {
    }

    lemma AppendSlice<T>(s: seq<T>, off: nat, n: nat, i: nat, j: nat)
      requires off + n <= |s| && i + j <= n
      ensures s[off..off + n][..i] + s[off + i..off + i + j] == s[off..off + n][..i + j]
    {
      SliceSlice(s, off, off + n, i, i + j);
      Append(s[off..off + n], i, j);
    }

    /** ijk_av_fifo_generic_peek_at: the callback or memcpy collects the bytes. */
    method PeekAt(offset: nat, bufSize: nat) returns (dest: seq<byte>)
      requires Valid() && offset + bufSize <= |Contents()|
      ensures dest == Contents()[offset..offset + bufSize]
    {
      InBounds();
      hide Valid, Contents, Window;
      dest := [];
      var left, r := bufSize, rptr;
      if offset >= buffer.Length - r {
        r := r + offset - buffer.Length;
      } else {
        r := r + offset;
      }
      ghost var want := Contents()[offset..offset + bufSize];
      while left > 0
        invariant 0 <= left && left + |dest| == bufSize
        invariant left > 0 ==> r == Wrap(rptr + offset + |dest|, buffer.Length) || r == rptr + offset + |dest| == buffer.Length
        invariant dest == want[..|dest|]
      {
        if r >= buffer.Length {
          r := r - buffer.Length;
        }
        var len := Min(buffer.Length - r, left);
        var chunk := GetChunk(r, len, offset + |dest|);
        AppendSlice(Contents(), offset, bufSize, |dest|, len);
        dest := dest + chunk;
        left := left - len;
        r := r + len;
      }
    }

    /** ijk_av_fifo_generic_peek */
    method Peek(bufSize: nat) returns (dest: seq<byte>)
      requires Valid() && bufSize <= |Contents()|
      ensures dest == Contents()[..bufSize]
    {
      InBounds();
      hide Valid;
      dest := [];
      var left, r := bufSize, rptr;
      var first := true;
      while first || left > 0
        invariant 0 <= left && left + |dest| == bufSize && (first ==> dest == [])
        invariant left > 0 || first ==> r == End(|dest|)
        invariant dest == Contents()[..|dest|]
        decreases first, left
      {
        first := false;
        var len := Min(buffer.Length - r, left);
        var chunk := GetChunk(r, len, |dest|);
        Append(Contents(), |dest|, len);
        dest := dest + chunk;
        r := r + len;
        if r >= buffer.Length {
          r := r - buffer.Length;
        }
        left := left - len;
      }
    }

    /** ijk_av_fifo_drain */
    method Drain(size: nat)
      requires Valid() && size <= |Contents()|
      modifies this
      ensures Valid() && buffer == old(buffer) && wptr == old(wptr) && wndx == old(wndx)
      ensures Contents() == old(Contents())[size..]
    {
      hide IndexDistance, Window, Allocatable, IsUint64;
      DrainDistance(wndx, rndx, size);
      if buffer.Length > 0 {
        WindowDrop(buffer[..], rptr, IndexDistance(wndx, rndx), size);
      }
      rptr := rptr + size;
      if rptr >= buffer.Length {
        rptr := rptr - buffer.Length;
      }
      rndx := Wrap64(rndx + size);
    }

    /** One chunk of ijk_av_fifo_generic_read. */
    method ReadChunk(left: nat) returns (chunk: seq<byte>)
      requires Valid() && left <= |Contents()|
      modifies this
      ensures Valid() && buffer == old(buffer) && wptr == old(wptr) && wndx == old(wndx)
      ensures |chunk| <= left && (left > 0 ==> |chunk| > 0)
      ensures chunk == old(Contents())[..|chunk|] && Contents() == old(Contents())[|chunk|..]
    {
      InBounds();
      hide Valid;
      var len := Min(buffer.Length - rptr, left);
      chunk := GetChunk(rptr, len, 0);
      Drain(len);
    }

    /** ijk_av_fifo_generic_read */
    method Read(bufSize: nat) returns (dest: seq<byte>)
      requires Valid() && bufSize <= |Contents()|
      modifies this
      ensures Valid() && buffer == old(buffer) && wptr == old(wptr) && wndx == old(wndx)
      ensures dest == old(Contents())[..bufSize]
      ensures Contents() == old(Contents())[bufSize..]
    {
      hide Valid, Contents;
      dest := [];
      var left := bufSize;
      var first := true;
      ghost var all := Contents();
      while first || left > 0
        invariant 0 <= left && left + |dest| == bufSize && (first ==> dest == [])
        invariant Valid() && buffer == old(buffer) && wptr == old(wptr) && wndx == old(wndx)
        invariant dest == all[..|dest|] && Contents() == all[|dest|..]
        decreases first, left
      {
        first := false;
        var chunk := ReadChunk(left);
        AppendDrop(all, dest, chunk);
        dest := dest + chunk;
        left := left - |chunk|;
      }
    }

    lemma AppendDrop<T>(s: seq<T>, a: seq<T>, b: seq<T>)
      requires |a| <= |s| && a == s[..|a|] && |b| <= |s| - |a| && b == s[|a|..][..|b|]
      ensures a + b == s[..|a + b|] && s[|a|..][|b|..] == s[|a + b|..]
    {
      DropDrop(s, |a|, |b|);
    }

    /** ijk_av_fifo_realloc2. `memory` tells whether malloc succeeds for an
        allocatable size. */
    method Realloc2(newSize: nat, memory: bool) returns (ret: int)
      requires Valid()
      modifies this
      ensures Valid() && Contents() == old(Contents())
      ensures ret == 0 <==> newSize <= old(buffer.Length) || (memory && Allocatable(newSize))
      ensures if ret == 0 then buffer.Length == Max(old(buffer.Length), newSize) else ret == -1 && unchanged(this)
    {
      var oldSize := buffer.Length;
      ret := 0;
      if oldSize < newSize {
        if !(memory && Allocatable(newSize)) {
          return -1;
        }
        InBounds();
        var len := Size();
        var f2 := new FifoBuffer(newSize);
        ghost var all := Contents();
        hide Valid;
        var bytes := Read(len);
        f2.Fill(bytes);
        buffer := f2.buffer;
        rptr, wptr, rndx, wndx := f2.rptr, f2.wptr, f2.rndx, f2.wndx;
        SameFields(f2);
      }
    }

    /** The copy into a fresh buffer that Realloc2 makes. */
    method Fill(bytes: seq<byte>)
      requires Valid() && Contents() == [] && rptr == wptr == rndx == wndx == 0 && |bytes| < buffer.Length
      modifies this, buffer
      ensures Valid() && buffer == old(buffer) && Contents() == bytes
    {
      forall k | 0 <= k < |bytes| {
        buffer[k] := bytes[k];
      }
      wptr := wptr + |bytes|;
      wndx := wndx + |bytes|;
    }

    lemma SameFields(f: FifoBuffer)
      requires f.Valid() && buffer == f.buffer && rptr == f.rptr && wptr == f.wptr && rndx == f.rndx && wndx == f.wndx
      ensures Valid() && Contents() == f.Contents()
    {
    }

    /** ijk_av_fifo_grow, in unsigned 32-bit arithmetic. */
    method Grow(size: nat, memory: bool) returns (ret: int)
      requires Valid() && size < TWO_32
      modifies this
      ensures Valid() && Contents() == old(Contents())
      ensures ret == 0 ==> size <= Space()
      ensures ret != 0 ==> ret == -1 && unchanged(this)
    {
      var oldSize := buffer.Length;
      var need := Trunc(size + Size());
      if need < size {
        return -1;
      }
      GrowNoOverflow(size);
      ret := 0;
      if oldSize < need {
        ret := Realloc2(Max(need, Trunc(2 * oldSize)), memory);
      }
    }

    lemma GrowNoOverflow(size: nat)
      requires Valid() && size < TWO_32 && size <= Trunc(size + Size())
      ensures Trunc(size + Size()) == size + |Contents()|
    {
    }
  }
}
