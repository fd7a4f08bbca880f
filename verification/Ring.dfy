/** The ring buffer of ijkavformat/ijkasync.c: a FIFO that keeps up to
    `readBackCapacity` bytes behind the read position for backward seeks. */
module Ring {
  import opened Common
  import opened Source
  import opened Fifo

  /** The bytes in the FIFO and the read position inside them. */
  datatype View = View(data: seq<byte>, readPos: nat)
  {
    predicate Valid() {
      readPos <= |data|
    }

    /** ring_size */
    function Size(): int {
      |data| - readPos
    }

    /** The view after ring_generic_read of `n` bytes. */
    function AfterRead(n: nat, back: nat): (v: View)
      requires Valid() && n <= Size()
      ensures v.Valid() && |v.data| <= |data|
    {
      if readPos + n > back then View(data[readPos + n - back..], back)
      else View(data, readPos + n)
    }
  }

  /** What was not read is still to be read, and what was is kept up to `back` bytes. */
  lemma ReadKeeps(v: View, n: nat, back: nat)
    requires v.Valid() && n <= v.Size()
    ensures var w := v.AfterRead(n, back);
      && w.data[w.readPos..] == v.data[v.readPos + n..] && w.data[..w.readPos] == v.data[v.readPos + n - w.readPos..v.readPos + n]
      && w.readPos == Min(v.readPos + n, back)
  {
  }

  class RingBuffer {
    const fifo: FifoBuffer
    const readBackCapacity: nat
    var readPos: nat

    ghost predicate Valid()
      reads this, fifo, fifo.buffer
    {
      fifo.Valid() && readPos <= |fifo.Contents()|
    }

    ghost function AsView(): View
      requires Valid()
      reads this, fifo, fifo.buffer
    {
      View(fifo.Contents(), readPos)
    }

    /** ring_init */
    constructor (capacity: nat, back: nat)
      requires Allocatable(capacity + back)
      ensures Valid() && AsView() == View([], 0) && fifo.Space() == capacity + back && readBackCapacity == back
      ensures fresh(fifo) && fresh(fifo.buffer)
    {
      fifo := new FifoBuffer(capacity + back);
      readBackCapacity := back;
      readPos := 0;
    }

    /** ring_reset */
    method Reset()
      requires Valid()
      modifies this, fifo
      ensures Valid() && AsView() == View([], 0) && fifo.buffer == old(fifo.buffer)
    {
      fifo.Reset();
      readPos := 0;
    }

    /** ring_generic_read */
    method GenericRead(bufSize: nat) returns (dest: seq<byte>)
      requires Valid() && bufSize <= AsView().Size()
      modifies this, fifo
      ensures Valid() && fifo.buffer == old(fifo.buffer)
      ensures AsView() == old(AsView()).AfterRead(bufSize, readBackCapacity)
      ensures dest == old(AsView()).data[old(readPos)..old(readPos) + bufSize]
    {
      dest := fifo.PeekAt(readPos, bufSize);
      readPos := readPos + bufSize;
      if readPos > readBackCapacity {
        fifo.Drain(readPos - readBackCapacity);
        readPos := readBackCapacity;
      }
    }

    /** ring_generic_write with the callback that reads the inner URL. */
    method GenericWrite(url: Url, size: nat) returns (written: int, lastRead: int)
      requires Valid() && size <= fifo.Space()
      modifies fifo, fifo.buffer, url
      ensures Valid() && fifo.buffer == old(fifo.buffer) && readPos == old(readPos)
      ensures 0 <= written <= size && url.pos == old(url.pos) + written
      ensures |AsView().data| == |old(AsView()).data| + written && old(AsView()).data <= AsView().data
      ensures Matches(url.data, old(url.pos), AsView().data[|old(AsView()).data|..])
      ensures written < size ==> lastRead <= 0
    {
      written, lastRead := fifo.WriteFrom(url, size);
    }

    /** ring_drain: moves the read position, backwards into what was read. */
    method Move(offset: int)
      requires Valid() && 0 - readPos <= offset <= AsView().Size()
      modifies this
      ensures Valid() && AsView() == View(old(AsView()).data, (old(readPos) + offset) as nat)
    {
      readPos := readPos + offset;
    }
  }
}
