/** What a caller of the read-through cache of ijkavformat/ijkiocache.c sees, call by
    call, and when that is a run of the plain source. */
module SyncTrace {
  import opened Common
  import opened Source

  /** The most operations on the cache file that one read makes. */
  const OPERATIONS := 6

  /** A read at `pos` from the plain source. An end may also be reported at
      `limit`, the size the source claims to have. `faults` are the codes with which
      opening, moving or reading the source failed meanwhile: a read fails exactly if
      there is one, with the last of them. */
  ghost predicate PlainRead(src: seq<byte>, limit: int, pos: nat, size: int, faults: seq<int>, ret: int, bytes: seq<byte>) {
    && (if size <= 0 then ret == size && bytes == [] && faults == []
        else if faults != [] then ret == faults[|faults| - 1] < 0 && ret != AVERROR_EOF && bytes == []
        else |bytes| <= size && if bytes != [] then ret == |bytes| else ret == 0 || ret == AVERROR_EOF)
    && Matches(src, pos, bytes)
    && (ret == 0 ==> size == 0 || pos >= limit || pos >= |src|)
    && (ret == AVERROR_EOF && size > 0 ==> pos >= |src|)
  }

  datatype Call = DoRead(size: int) | DoSeek(pos: int, whence: Whence)

  /** What a caller sees; `limit` is the size the source claims at that time. */
  datatype Event = DidRead(limit: int, faults: seq<int>, ret: int, bytes: seq<byte>) | DidSeek(limit: int, ret: int)

  /** One call answered as by the plain source, which moves from `pos` to `pos'`. */
  ghost predicate PlainCall(src: seq<byte>, pos: nat, call: Call, ev: Event, pos': nat) {
    match call
    case DoRead(size) =>
      ev.DidRead? && PlainRead(src, ev.limit, pos, size, ev.faults, ev.ret, ev.bytes) && pos' == pos + Max(ev.ret, 0)
    case DoSeek(offset, whence) =>
      && ev.DidSeek? && ev.ret == SeekResult(pos, whence, offset, ev.limit)
      && pos' == if whence.Size? || ev.ret < 0 then pos else ev.ret
  }

  /** All calls answered as by the plain source, which moves from `pos` to `end`. */
  ghost predicate IsPlainRun(src: seq<byte>, pos: nat, calls: seq<Call>, events: seq<Event>, end: nat)
    decreases |calls|
  {
    |calls| == |events| &&
    if calls == [] then end == pos
    else exists mid: nat :: PlainCall(src, pos, calls[0], events[0], mid) && IsPlainRun(src, mid, calls[1..], events[1..], end)
  }

  lemma {:induction false} PlainRunExtend(src: seq<byte>, pos: nat, calls: seq<Call>, events: seq<Event>, mid: nat,
                                          call: Call, ev: Event, end: nat)
    requires IsPlainRun(src, pos, calls, events, mid) && PlainCall(src, mid, call, ev, end)
    ensures IsPlainRun(src, pos, calls + [call], events + [ev], end)
    decreases |calls|
  {
    hide PlainCall;
    var cs, es := calls + [call], events + [ev];
    if calls == [] {
      assert IsPlainRun(src, end, cs[1..], es[1..], end);
    } else {
      var next: nat :| PlainCall(src, pos, calls[0], events[0], next) && IsPlainRun(src, next, calls[1..], events[1..], mid);
      PlainRunExtend(src, next, calls[1..], events[1..], mid, call, ev, end);
      assert cs[1..] == calls[1..] + [call] && es[1..] == events[1..] + [ev];
    }
  }

  /** A state of the cache between two calls: the caller's position, whether the file
      and the index agree now and for the next write, whether bytes are misplaced,
      whether a read at the position is sure to be right all the same, how many
      rewinds of a flush failed so far, how many operations on the file will work
      before one may fail, whether the capacity is kept, how the inner source
      failed so far, what its size is taken to be, and what it claimed so far. */
  datatype Snap = Snap(pos: nat, synced: bool, misplaced: bool, sure: bool, lost: nat, streak: nat, within: bool, faults: seq<int>,
                       size: int, claims: seq<int>)

  /** The size is the one that was claimed last. */
  predicate ClaimedSize(size0: int, claims0: seq<int>, size: int, claims: seq<int>) {
    if claims == claims0 then size == size0
    else claims0 <= claims && size == claims[|claims| - 1]
  }

  /** What one call does between two states. */
  ghost predicate Linked(src: seq<byte>, a: Snap, call: Call, ev: Event, b: Snap) {
    && (a.sure || call.DoSeek? ==> PlainCall(src, a.pos, call, ev, b.pos))
    && (!a.misplaced ==> a.sure) && (a.synced ==> !a.misplaced)
    && (!a.misplaced && b.misplaced ==> !a.synced)
    && a.lost <= b.lost && (a.synced ==> (b.synced <==> b.lost == a.lost))
    && b.streak >= a.streak - OPERATIONS && (a.streak >= OPERATIONS ==> b.lost == a.lost)
    && (!a.misplaced && !b.misplaced && a.within ==> b.within)
    && (call.DoSeek? ==> b == a.(pos := b.pos, sure := b.sure))
    && (call.DoRead? ==> ev.DidRead? && b.faults == a.faults + ev.faults)
    && ev.limit == a.size && ClaimedSize(a.size, a.claims, b.size, b.claims)
  }

  ghost predicate LinkedAt(src: seq<byte>, snaps: seq<Snap>, calls: seq<Call>, events: seq<Event>, i: nat)
    requires i < |calls| == |events| && |snaps| == |calls| + 1
  {
    Linked(src, snaps[i], calls[i], events[i], snaps[i + 1])
  }

  ghost predicate IsTrace(src: seq<byte>, snaps: seq<Snap>, calls: seq<Call>, events: seq<Event>) {
    && |calls| == |events| && |snaps| == |calls| + 1
    && forall i :: 0 <= i < |calls| ==> LinkedAt(src, snaps, calls, events, i)
  }

  lemma TraceExtend(src: seq<byte>, snaps: seq<Snap>, calls: seq<Call>, events: seq<Event>, call: Call, ev: Event, b: Snap)
    requires IsTrace(src, snaps, calls, events) && Linked(src, snaps[|calls|], call, ev, b)
    ensures IsTrace(src, snaps + [b], calls + [call], events + [ev])
  {
    hide Linked;
    forall i | 0 <= i < |calls| + 1
      ensures LinkedAt(src, snaps + [b], calls + [call], events + [ev], i)
    {
      if i < |calls| {
        assert LinkedAt(src, snaps, calls, events, i);
      }
    }
  }

  lemma {:induction false} TraceMonotone(src: seq<byte>, snaps: seq<Snap>, calls: seq<Call>, events: seq<Event>, i: nat)
    requires IsTrace(src, snaps, calls, events) && i <= |calls|
    ensures snaps[i].lost <= snaps[|calls|].lost
    decreases |calls| - i
  {
    if i < |calls| {
      assert LinkedAt(src, snaps, calls, events, i);
      TraceMonotone(src, snaps, calls, events, i + 1);
      hide IsTrace;
    }
  }

  /** A run from a synced cache in which no flush fails to rewind the file is a run of
      the plain source, whatever else fails. The cache stays synced throughout and
      keeps its capacity. */
  lemma TraceIsPlain(src: seq<byte>, snaps: seq<Snap>, calls: seq<Call>, events: seq<Event>)
    requires IsTrace(src, snaps, calls, events)
    requires snaps[0].synced && snaps[|calls|].lost == snaps[0].lost
    ensures forall i :: 0 <= i < |snaps| ==> snaps[i].synced
    ensures IsPlainRun(src, snaps[0].pos, calls, events, snaps[|calls|].pos)
    ensures snaps[0].within ==> snaps[|calls|].within && forall i :: 0 <= i < |snaps| ==> snaps[i].within
  {
    TracePrefix(src, snaps, calls, events, |calls|);
    assert calls[..|calls|] == calls && events[..|calls|] == events;
  }

  lemma {:induction false} TracePrefix(src: seq<byte>, snaps: seq<Snap>, calls: seq<Call>, events: seq<Event>, n: nat)
    requires IsTrace(src, snaps, calls, events) && n <= |calls|
    requires snaps[0].synced && snaps[|calls|].lost == snaps[0].lost
    ensures snaps[n].lost == snaps[0].lost && forall i :: 0 <= i <= n ==> snaps[i].synced
    ensures IsPlainRun(src, snaps[0].pos, calls[..n], events[..n], snaps[n].pos)
    ensures snaps[0].within ==> forall i :: 0 <= i <= n ==> snaps[i].within
    decreases n
  {
    hide PlainCall;
    if n > 0 {
      TracePrefix(src, snaps, calls, events, n - 1);
      TraceMonotone(src, snaps, calls, events, n);
      assert LinkedAt(src, snaps, calls, events, n - 1);
      hide IsTrace;
      NotMisplaced(src, snaps[n - 1], calls[n - 1], events[n - 1], snaps[n]);
      PlainRunExtend(src, snaps[0].pos, calls[..n - 1], events[..n - 1], snaps[n - 1].pos, calls[n - 1], events[n - 1], snaps[n].pos);
      assert calls[..n] == calls[..n - 1] + [calls[n - 1]] && events[..n] == events[..n - 1] + [events[n - 1]];
    }
  }

  lemma NotMisplaced(src: seq<byte>, a: Snap, call: Call, ev: Event, b: Snap)
    requires Linked(src, a, call, ev, b) && a.synced && a.lost <= b.lost
    ensures !a.misplaced && !b.misplaced && (b.lost == a.lost ==> b.synced) && (a.within ==> b.within)
    ensures PlainCall(src, a.pos, call, ev, b.pos)
  {
  }

  /** With as many operations that work as the calls can make, no rewind is lost. */
  lemma TraceLosesNothing(src: seq<byte>, snaps: seq<Snap>, calls: seq<Call>, events: seq<Event>)
    requires IsTrace(src, snaps, calls, events) && snaps[0].streak >= OPERATIONS * |calls|
    ensures snaps[|calls|].lost == snaps[0].lost
  {
    LostPrefix(src, snaps, calls, events, |calls|);
  }

  lemma {:induction false} LostPrefix(src: seq<byte>, snaps: seq<Snap>, calls: seq<Call>, events: seq<Event>, n: nat)
    requires IsTrace(src, snaps, calls, events) && n <= |calls| && snaps[0].streak >= OPERATIONS * |calls|
    ensures snaps[n].lost == snaps[0].lost && snaps[n].streak >= OPERATIONS * (|calls| - n)
    decreases n
  {
    if n > 0 {
      LostPrefix(src, snaps, calls, events, n - 1);
      assert LinkedAt(src, snaps, calls, events, n - 1);
      hide IsTrace;
    }
  }
}
