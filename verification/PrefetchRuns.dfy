/** The steps of the prefetching filler, and what holds in every run. */
module PrefetchRuns {
  import opened Common
  import opened AvlTree
  import opened CacheIndex
  import opened CacheStorage
  import opened Source
  import opened PrefetchProtocol
  import opened PrefetchProof

  /** Steps of the filler that only pass on control. */
  lemma ControlOk(c: Config, s: State, f: Filler)
    requires Inv(c, s)
    requires
      || (s.filler.Top? && !s.abort && f.Poll?)
      || (s.filler.Poll? && f == if s.seek.request then Handover else Check)
      || (s.filler.Check? && f == if FarEnough(c, s) then GoSleep else Skip)
    ensures Good(c, s, (s.(filler := f), Silent))
  {
    hide StoreInv, Window, Gap, Covering, Matches, Root, CauseOk, ReportOk, WhyOk, RequestInv;
  }

  /** Steps of the filler that wake the reader up. */
  lemma SignalOk(c: Config, s: State, f: Filler)
    requires Inv(c, s) && !s.locked && ((s.filler.GoSleep? && f.Asleep?) || (s.filler.Notify? && f.Top?))
    ensures Good(c, s, (s.(reader := WakeReader(s.reader), filler := f), Silent))
  {
    hide StoreInv, Window, Gap, Covering, Matches, Root, CauseOk, ReportOk, WhyOk;
  }

  /** The hand-over serves a seek that waits, or moves a caller that was
      interrupted and does not wait any more. */
  lemma HandoverOk(c: Config, s: State)
    requires Inv(c, s) && s.filler.Handover? && !s.locked
    ensures var s' := FillerHandover(s);
      && Inv(c, s')
      && PlainStep(c, s'.logicalSize, s'.resized, s'.abort, !Seeking(s.reader), ClientPlace(s), Silent, ClientPlace(s'))
  {
    MatchesEmpty(c.Src(), s.seek.target);
    hide StoreInv, Covering, Matches, Root, CauseOk, ReportOk, WhyOk;
  }

  lemma HaltOk(c: Config, s: State)
    requires Inv(c, s) && s.filler.Top?
    ensures Good(c, s, (s.(abort := true, filler := Halted), Silent))
  {
    hide StoreInv, Window, FreeInv, InnerInv, EofInv, Matches, Root, FarEnough;
    RestOk(c, s, Halted);
  }

  lemma HaltedOk(c: Config, s: State)
    requires Inv(c, s) && s.filler.Halted?
    ensures Good(c, s, (s.(eof := true, cause := Interrupted, filler := Stopping), Silent))
  {
    hide StoreInv, Window, Covering, Matches, Root, ReportOk;
  }

  // ----- skipping what is cached -----

  lemma GapUncovered(t: Tree, pos: int, len: int)
    requires Ordered(t) && LogicallyDisjoint(Elems(t)) && Gap(Elems(t), pos, len) && len > 0
    ensures Covering(t, pos).None?
  {
    var c := Covering(t, pos);
    CoveringSpec(t, pos, if c.Some? then c.value else Entry(0, 0, 0));
    hide Covering, Ordered, Elems, LogicallyDisjoint;
  }

  /** Behind the entry that holds a position nothing is indexed up to the next. */
  lemma GapBehind(t: Tree, from: int, e: Entry, room: int)
    requires Ordered(t) && LogicallyDisjoint(Elems(t)) && Covering(t, from) == Some(e) && room > 0
    requires var next := Behind(t, from); next.Some? ==> e.logical + e.size + room <= next.value.logical
    ensures Gap(Elems(t), e.logical + e.size, room)
  {
    CoveringSpec(t, from, e);
    NearestSpec(t, from);
    OrderedUnique(t);
    forall f | f in Elems(t)
      ensures f.logical + f.size <= e.logical + e.size || e.logical + e.size + room <= f.logical
    {
      if from < f.logical {
        BehindIsLeast(Elems(t), from, Behind(t, from), f);
      }
      hide Covering, Nearest, Behind, Ordered, Elems, IsFloor, IsNext;
    }
    hide Covering, Nearest, Behind, Ordered, Elems, IsFloor, IsNext, LogicallyDisjoint, UniqueKeys;
  }

  lemma NextBehind(t: Tree, from: int, e: Entry)
    requires Ordered(t) && LogicallyDisjoint(Elems(t)) && Covering(t, from) == Some(e)
    ensures var next := Behind(t, from); next.Some? ==> e.logical + e.size <= next.value.logical
  {
    CoveringSpec(t, from, e);
    NearestSpec(t, from);
    hide Covering, Nearest, Behind, Ordered, Elems, IsFloor;
  }

  lemma SkipOk(t: Tree, pos: nat, read: nat)
    requires Ordered(t) && LogicallyDisjoint(Elems(t)) && Window(t, read, pos)
    requires forall e :: e in Elems(t) ==> 0 <= e.size
    ensures pos <= SkipTo(t, pos) && 0 <= SkipRoom(t, pos)
    ensures Window(t, read, SkipTo(t, pos))
    ensures SkipRoom(t, pos) > 0 ==> Gap(Elems(t), SkipTo(t, pos), SkipRoom(t, pos)) && Covering(t, SkipTo(t, pos)).None?
  {
    var e := Covering(t, pos);
    var to, room := SkipTo(t, pos), SkipRoom(t, pos);
    NearestSpec(t, pos);
    if e.Some? {
      CoveringSpec(t, pos, e.value);
      NextBehind(t, pos, e.value);
      WindowStep(t, pos, read, e.value, to);
      if room > 0 {
        GapBehind(t, pos, e.value, room);
      }
    } else if room > 0 {
      GapAt(t, pos, room);
    }
    if room > 0 {
      GapUncovered(t, to, room);
    }
    hide Covering, Nearest, Ordered, Elems, IsFloor, LogicallyDisjoint, Behind;
  }

  lemma EntrySizes(c: Config, f: Store)
    requires StoreInv(c, f)
    ensures forall e :: e in Elems(Root(c, f)) ==> 0 <= e.size
  {
    ShapeOk(c, f);
    forall e | e in Elems(Root(c, f))
      ensures 0 <= e.size
    {
      assert EntryStored(c.Src(), f.file, f.last, e);
    }
  }

  lemma FillerSkipOk(c: Config, s: State)
    requires Inv(c, s) && s.filler.Skip?
    ensures Good(c, s, (FillerSkip(c, s), Silent))
  {
    hide Inv, Good, Gap, Window, Covering, SkipTo, SkipRoom, Root, Elems;
    SkipFacts(c, s);
    var pos, room := SkipTo(Root(c, s.store), s.fileLogical), SkipRoom(Root(c, s.store), s.fileLogical);
    assert FillerSkip(c, s) == SkipBy(s, pos, room);
    hide FillerSkip;
    SkipByOk(c, s, pos, room);
  }

  lemma SkipByOk(c: Config, s: State, pos: nat, room: nat)
    requires Inv(c, s) && s.filler.Skip?
    requires pos == SkipTo(Root(c, s.store), s.fileLogical) && room == SkipRoom(Root(c, s.store), s.fileLogical)
    ensures Good(c, s, (SkipBy(s, pos, room), Silent))
  {
    hide Inv, Good, SkipTo, SkipRoom, Root, SkipBy;
    if room > 0 && ((s.fileLogicalEnd > 0 && pos == s.fileLogicalEnd) || pos >= s.logicalSize) {
      SkipToEnd(c, s, pos, room);
    } else {
      SkipToWork(c, s, pos, room);
    }
  }

  lemma SkipToEnd(c: Config, s: State, pos: nat, room: nat)
    requires Inv(c, s) && s.filler.Skip? && room > 0
    requires pos == SkipTo(Root(c, s.store), s.fileLogical) && room == SkipRoom(Root(c, s.store), s.fileLogical)
    requires (s.fileLogicalEnd > 0 && pos == s.fileLogicalEnd) || pos >= s.logicalSize
    ensures Good(c, s, (SkipBy(s, pos, room), Silent))
  {
    hide Inv, Good, SkipTo, SkipRoom, Root;
    var cause := if s.fileLogicalEnd > 0 && pos == s.fileLogicalEnd then EndReached else SizeReached;
    assert SkipBy(s, pos, room) == s.(fileLogical := pos, eof := true, cause := cause, filler := Top);
    SkipEnds(c, s, cause);
    hide SkipBy;
  }

  lemma SkipToWork(c: Config, s: State, pos: nat, room: nat)
    requires Inv(c, s) && s.filler.Skip?
    requires pos == SkipTo(Root(c, s.store), s.fileLogical) && room == SkipRoom(Root(c, s.store), s.fileLogical)
    requires room == 0 || !((s.fileLogicalEnd > 0 && pos == s.fileLogicalEnd) || pos >= s.logicalSize)
    ensures Good(c, s, (SkipBy(s, pos, room), Silent))
  {
    hide Inv, Good, SkipTo, SkipRoom, Root;
    var f := if room == 0 then Top else if pos != s.fileInner then SeekInner(room) else Fetch(room);
    assert SkipBy(s, pos, room) == s.(fileLogical := pos, filler := f);
    MoveOn(c, s, f);
    hide SkipBy;
  }

  lemma SkipFacts(c: Config, s: State)
    requires Inv(c, s)
    ensures var t := Root(c, s.store);
      var pos, room := SkipTo(t, s.fileLogical), SkipRoom(t, s.fileLogical);
      && s.fileLogical <= pos && 0 <= room && Window(t, s.readLogical, pos)
      && (room > 0 ==> Gap(Elems(t), pos, room) && Covering(t, pos).None?)
  {
    ShapeOk(c, s.store);
    EntrySizes(c, s.store);
    SkipOk(Root(c, s.store), s.fileLogical, s.readLogical);
    hide *;
  }

  lemma InnerEnd(c: Config, s: State)
    requires Inv(c, s)
    ensures (Astray(s) ==> s.fileInner == 0) && (s.fileLogicalEnd > 0 ==> s.fileLogicalEnd >= |c.Src()|)
    ensures s.filler.SeekInner? && s.fileLogical == s.fileLogicalEnd ==> s.fileLogical == 0
  {
    hide StoreInv, Window, Gap, Covering, Matches, Root, EofInv, SeekInv, RequestInv, SleepInv;
  }

  lemma MoveOn(c: Config, s: State, f: Filler)
    requires Inv(c, s) && s.filler.Skip?
    requires var pos := SkipTo(Root(c, s.store), s.fileLogical);
      && pos >= 0
      && (|| f.Top?
          || ((f.SeekInner? || f.Fetch?) && f.toCopy == SkipRoom(Root(c, s.store), s.fileLogical) && f.toCopy > 0
              && pos < s.logicalSize && f.Fetch? == (pos == s.fileInner) && (pos == s.fileLogicalEnd ==> pos == 0)))
    ensures Good(c, s, (s.(fileLogical := SkipTo(Root(c, s.store), s.fileLogical), filler := f), Silent))
  {
    SkipFacts(c, s);
    hide StoreInv, Window, Gap, Covering, Matches, Root, WhyOk, CauseOk, SkipTo, SkipRoom;
  }

  lemma SkipEnds(c: Config, s: State, cause: Cause)
    requires Inv(c, s) && s.filler.Skip? && SkipRoom(Root(c, s.store), s.fileLogical) > 0
    requires var pos := SkipTo(Root(c, s.store), s.fileLogical);
      && pos >= 0
      && ((cause == EndReached && pos == s.fileLogicalEnd > 0) || (cause == SizeReached && pos >= s.logicalSize))
    ensures Good(c, s, (s.(fileLogical := SkipTo(Root(c, s.store), s.fileLogical), eof := true, cause := cause, filler := Top), Silent))
  {
    SkipFacts(c, s);
    InnerEnd(c, s);
    EndSet(c, s, SkipTo(Root(c, s.store), s.fileLogical), s.fileLogicalEnd, s.fileInner, cause, Top, s.quit);
    hide *;
  }

  /** The end is noted at a place that is not cached. */
  lemma EndSet(c: Config, s: State, pos: nat, end: nat, inner: int, cause: Cause, f: Filler, quit: bool)
    requires Inv(c, s) && (s.filler.Skip? || s.filler.SeekInner? || s.filler.Fetch?)
    requires Window(Root(c, s.store), s.readLogical, pos) && Covering(Root(c, s.store), pos).None?
    requires CauseOk(c, 0, cause, pos, s.logicalSize, s.resized, s.abort) && (end > 0 ==> end >= |c.Src()|)
    requires f.Top? || (f.Report? && ReportOk(cause, f.code)) || (f.Exiting? && quit)
    requires (s.quit ==> quit) && (inner == s.fileInner || inner == 0)
    ensures Good(c, s, (s.(fileLogical := pos, fileLogicalEnd := end, fileInner := inner, eof := true, cause := cause, filler := f, quit := quit),
                      Silent))
  {
    hide StoreInv, Window, Gap, Covering, Matches, Root, WhyOk, CauseOk, ReportOk;
  }

  // ----- the inner source -----

  lemma OpenOk(c: Config, s: State, reply: Reply)
    requires Inv(c, s) && (s.filler.SeekInner? || s.filler.Fetch?) && HonestReply(reply)
    ensures Good(c, s, (FillerOpen(s, reply), Silent))
  {
    match reply {
      case Fail(code) =>
        assert FillerOpen(s, reply) ==
          s.(fileLogicalEnd := s.fileLogicalEnd, eof := true, cause := ReadFailed(code), filler := Report(code));
        GapHere(c, s);
        HereOk(c, s);
        InnerEnd(c, s);
        EndSet(c, s, s.fileLogical, s.fileLogicalEnd, s.fileInner, ReadFailed(code), Report(code), s.quit);
      case Deliver(size) =>
        assert FillerOpen(s, reply) ==
          s.(logicalSize := size, asyncOpen := false, resized := s.resized || size != s.logicalSize);
        OpenedOk(c, s, size, s.resized || size != s.logicalSize);
    }
    hide *;
  }

  lemma OpenedOk(c: Config, s: State, size: nat, resized: bool)
    requires Inv(c, s) && (s.filler.SeekInner? || s.filler.Fetch?) && resized == (s.resized || size != s.logicalSize)
    ensures Good(c, s, (s.(logicalSize := size, asyncOpen := false, resized := resized), Silent))
  {
    hide StoreInv, Window, Gap, Covering, Matches, Root, WhyOk, CauseOk, FreeInv, InnerInv, SeekInv, SleepInv;
  }

  /** The place the filler works at is not cached. */
  lemma GapHere(c: Config, s: State)
    requires Inv(c, s) && (s.filler.SeekInner? || s.filler.Fetch?)
    ensures Covering(Root(c, s.store), s.fileLogical).None?
  {
    ShapeOk(c, s.store);
    GapUncovered(Root(c, s.store), s.fileLogical, s.filler.toCopy);
    hide StoreInv, Window, Gap, Covering, Matches, Root, InnerInv, EofInv, SeekInv, RequestInv, SleepInv;
  }

  lemma HereOk(c: Config, s: State)
    requires Inv(c, s) && (s.filler.SeekInner? || s.filler.Fetch?)
    ensures Window(Root(c, s.store), s.readLogical, s.fileLogical) && !s.eof
    ensures s.fileLogical < s.logicalSize || s.resized
  {
    hide StoreInv, Window, Gap, Covering, Matches, Root, SeekInv, RequestInv, SleepInv;
  }

  lemma FillerSeekOk(c: Config, s: State, reply: Reply)
    requires Inv(c, s) && s.filler.SeekInner? && HonestReply(reply)
    ensures Good(c, s, (FillerSeek(s, s.filler.toCopy, reply), Silent))
  {
    GapHere(c, s);
    HereOk(c, s);
    InnerEnd(c, s);
    match reply {
      case Deliver(_) =>
        assert FillerSeek(s, s.filler.toCopy, reply) ==
          s.(innerPos := s.fileLogical, fileInner := s.fileLogical, filler := Fetch(s.filler.toCopy));
        SoughtOk(c, s);
      case Fail(code) =>
        var quits := code == FILE_RW_ERROR;
        var f := if quits then Exiting else Top;
        var inner := if s.fileLogicalEnd == s.fileLogical then 0 else s.fileInner;
        assert FillerSeek(s, s.filler.toCopy, reply) ==
          s.(eof := true, cause := SeekFailed, fileInner := inner, filler := f, quit := quits || s.quit);
        EndSet(c, s, s.fileLogical, s.fileLogicalEnd, inner, SeekFailed, f, quits || s.quit);
    }
    hide *;
  }

  lemma SoughtOk(c: Config, s: State)
    requires Inv(c, s) && s.filler.SeekInner?
    ensures Good(c, s, (s.(innerPos := s.fileLogical, fileInner := s.fileLogical, filler := Fetch(s.filler.toCopy)), Silent))
  {
    hide StoreInv, Window, Gap, Covering, Matches, Root, WhyOk, CauseOk;
  }

  lemma FetchEndOk(c: Config, s: State, reply: Reply)
    requires Inv(c, s) && s.filler.Fetch? && HonestReply(reply)
    requires reply.Fail? || |c.Src()| <= s.innerPos == s.fileLogical
    ensures Good(c, s, (FillerFetch(c, s, s.filler.toCopy, reply), Silent))
  {
    GapHere(c, s);
    HereOk(c, s);
    InnerEnd(c, s);
    match reply {
      case Deliver(n) =>
        var code := if n == 0 then 0 else AVERROR_EOF;
        var end := if n == 0 then s.fileLogical else s.fileLogicalEnd;
        assert FillerFetch(c, s, s.filler.toCopy, reply) ==
          s.(fileLogicalEnd := end, eof := true, cause := EndReached, filler := Report(code));
        EndSet(c, s, s.fileLogical, end, s.fileInner, EndReached, Report(code), s.quit);
      case Fail(code) =>
        assert FillerFetch(c, s, s.filler.toCopy, reply) == s.(eof := true, cause := ReadFailed(code), filler := Report(code));
        EndSet(c, s, s.fileLogical, s.fileLogicalEnd, s.fileInner, ReadFailed(code), Report(code), s.quit);
    }
    hide *;
  }

  lemma FetchDataOk(c: Config, s: State, n: nat)
    requires Inv(c, s) && s.filler.Fetch? && s.fileLogical == s.innerPos < |c.Src()|
    ensures Good(c, s, (FillerFetch(c, s, s.filler.toCopy, Deliver(n)), Silent))
  {
    hide Inv, Good, Fetched;
    var toCopy := s.filler.toCopy;
    RoomHere(c, s);
    var len := Min(Min(Max(n, 1), toCopy), |c.Src()| - s.innerPos);
    var buf := c.Src()[s.innerPos..s.innerPos + len];
    FetchedOk(c, s, buf);
  }

  lemma RoomHere(c: Config, s: State)
    requires Inv(c, s) && s.filler.Fetch?
    ensures s.filler.toCopy > 0
  {
    hide StoreInv, Window, Gap, Covering, Matches, Root, InnerInv, EofInv, SeekInv, RequestInv, SleepInv;
  }

  lemma GapShorter(entries: set<Entry>, pos: int, len: int, n: int)
    requires n <= len
    ensures Gap(entries, pos, len) ==> Gap(entries, pos, n)
  {
  }

  lemma FetchedOk(c: Config, s: State, buf: seq<byte>)
    requires Inv(c, s) && s.filler.Fetch? && 0 < |buf| <= s.filler.toCopy && s.fileLogical == s.innerPos
    requires s.innerPos + |buf| <= |c.Src()| && buf == c.Src()[s.innerPos..s.innerPos + |buf|]
    ensures Good(c, s, (Fetched(s, buf), Silent))
  {
    assert Matches(c.Src(), s.innerPos, buf);
    GapShorter(Elems(Root(c, s.store)), s.fileLogical, s.filler.toCopy, |buf|);
    hide StoreInv, Window, Gap, Covering, Matches, Root, WhyOk, CauseOk;
  }

  lemma ReportStepOk(c: Config, s: State)
    requires Inv(c, s) && s.filler.Report?
    ensures Good(c, s, (s.(ioError := s.filler.code, filler := Leave(s.filler.code), quit := s.quit || s.filler.code == FILE_RW_ERROR), Silent))
  {
    var code := s.filler.code;
    if code == FILE_RW_ERROR {
      Reported(c, s, Exiting, true);
    } else {
      Reported(c, s, Top, s.quit);
    }
    hide Inv, Good;
  }

  lemma Reported(c: Config, s: State, f: Filler, quit: bool)
    requires Inv(c, s) && s.filler.Report?
    requires (f.Top? && quit == s.quit) || (f.Exiting? && quit)
    ensures Good(c, s, (s.(ioError := s.filler.code, filler := f, quit := quit), Silent))
  {
    hide StoreInv, Window, Gap, Covering, Matches, Root, WhyOk;
  }

  lemma StopOk(c: Config, s: State)
    requires Inv(c, s) && s.filler.Stopping?
    ensures Good(c, s, (s.(ioError := AVERROR_EXIT, filler := Exiting), Silent))
  {
    hide StoreInv, Window, Gap, Covering, Matches, Root, WhyOk;
  }

  lemma ExitOk(c: Config, s: State)
    requires Inv(c, s) && s.filler.Exiting? && !s.locked
    ensures Good(c, s, (s.(reader := if s.reader.CloseSleep? then Closed else WakeReader(s.reader), filler := Exited), Silent))
  {
    hide StoreInv, Window, Gap, Covering, Matches, Root, WhyOk;
  }

  // ----- adding to the index -----

  lemma FlushedOk(c: Config, f: Store)
    requires StoreInv(c, f)
    ensures StoreInv(c, Flushed(c, f)) && Root(c, Flushed(c, f)) == Nil
  {
    CoherentEmpty(c.sources, f.file, c.curNo);
    hide Coherent;
  }

  lemma GrownOk(c: Config, f: Store, pos: nat, buf: seq<byte>, n: nat)
    requires StoreInv(c, f) && n <= |buf| && |buf| > 0 && f.last >= 0
    requires Matches(c.Src(), pos, buf) && Gap(Elems(Root(c, f)), pos, |buf|)
    requires f.last + |buf| < c.maxCapacity
    ensures StoreInv(c, Grown(c, f, pos, buf, n)) && Root(c, Grown(c, f, pos, buf, n)) == Index(Root(c, f), pos, f.last, n)
  {
    assert buf[0..n] == buf[..n];
    MatchesSlice(c.Src(), pos, buf, 0, n);
    assert 0 <= f.last <= |f.file|;
    CoherentAdded(c.sources, f.file, f.last, f.trees, c.curNo, pos, buf[..n], |buf|);
    hide Coherent, Matches, Gap, Overwrite, Index;
  }

  /** What was cached stays cached, and what was added is cached. */
  lemma WindowGrown(t: Tree, t': Tree, read: nat, pos: nat, last: int, n: nat)
    requires Ordered(t) && LogicallyDisjoint(Elems(t)) && Window(t, read, pos)
    requires t' == Index(t, pos, last, n) && Ordered(t') && LogicallyDisjoint(Elems(t'))
    ensures Window(t', read, pos)
    ensures !Clash(t, pos, last, n) ==> Window(t', read, pos + n)
  {
    forall p | Covering(t, p).Some?
      ensures Covering(t', p).Some?
    {
      IndexKeeps(t, pos, last, n, p);
    }
    if !Clash(t, pos, last, n) {
      forall p | pos <= p < pos + n
        ensures Covering(t', p).Some?
      {
        IndexCovers(t, pos, last, n, p);
      }
    }
    hide Covering, Ordered, LogicallyDisjoint, Elems, Clash, Index;
  }

  lemma FaultOk(c: Config, s: State, f: Store)
    requires Inv(c, s) && s.filler.Add? && !s.locked
    requires f == s.store.(fdPos := f.fdPos, retries := f.retries)
    ensures Good(c, s, (s.(store := f, filler := Top), Silent))
  {
    assert StoreInv(c, f) && Root(c, f) == Root(c, s.store);
    hide StoreInv, Window, Gap, Covering, Matches, Root, WhyOk, CauseOk;
  }

  lemma FlushOk(c: Config, s: State)
    requires Inv(c, s) && s.filler.Add? && !s.locked
    ensures Good(c, s, (s.(store := Flushed(c, s.store), eof := false, fileLogical := s.readLogical, filler := Top), Silent))
  {
    FlushedOk(c, s.store);
    hide StoreInv, Gap, Covering, Matches, Root, WhyOk, CauseOk, Flushed;
  }

  lemma GrowthOk(c: Config, s: State, n: nat)
    requires Inv(c, s) && s.filler.Add? && !s.locked && n <= |s.filler.buf| && s.store.last >= 0
    requires s.store.last + |s.filler.buf| < c.maxCapacity
    ensures var s1 := s.(store := Grown(c, s.store, s.fileLogical, s.filler.buf, n));
      Good(c, s,
        (if Clash(Root(c, s.store), s.fileLogical, s.store.last, n) || n == 0 then s1.(filler := Top)
         else s1.(fileLogical := s.fileLogical + n, filler := Notify), Silent))
  {
    hide Inv, Good, Clash, Root, Grown, StoreInv, Window;
    var f := Grown(c, s.store, s.fileLogical, s.filler.buf, n);
    GrowthFacts(c, s, n);
    if Clash(Root(c, s.store), s.fileLogical, s.store.last, n) || n == 0 {
      GrownHere(c, s, f, s.fileLogical, Top);
    } else {
      GrownHere(c, s, f, s.fileLogical + n, Notify);
    }
  }

  lemma GrowthFacts(c: Config, s: State, n: nat)
    requires Inv(c, s) && s.filler.Add? && n <= |s.filler.buf| && s.store.last >= 0
    requires s.store.last + |s.filler.buf| < c.maxCapacity
    ensures var f := Grown(c, s.store, s.fileLogical, s.filler.buf, n);
      && StoreInv(c, f) && Window(Root(c, f), s.readLogical, s.fileLogical)
      && (Clash(Root(c, s.store), s.fileLogical, s.store.last, n) || Window(Root(c, f), s.readLogical, s.fileLogical + n))
  {
    var f := Grown(c, s.store, s.fileLogical, s.filler.buf, n);
    hide SeekInv, RequestInv, SleepInv, EofInv, StoreInv, Window, Gap, Matches, Root, Clash, Grown, Elems, Ordered;
    GrownOk(c, s.store, s.fileLogical, s.filler.buf, n);
    ShapeOk(c, s.store);
    ShapeOk(c, f);
    WindowGrown(Root(c, s.store), Root(c, f), s.readLogical, s.fileLogical, s.store.last, n);
  }

  lemma GrownHere(c: Config, s: State, f: Store, pos: nat, filler: Filler)
    requires Inv(c, s) && s.filler.Add? && !s.locked
    requires StoreInv(c, f) && Window(Root(c, f), s.readLogical, pos)
    requires filler.Top? || filler.Notify?
    ensures Good(c, s, (s.(store := f, fileLogical := pos, filler := filler), Silent))
  {
    hide StoreInv, Window, Gap, Covering, Matches, Root, WhyOk, CauseOk;
  }

  lemma GivenUpOk(c: Config, s: State)
    requires Inv(c, s)
    ensures Good(c, s, (s.(cacheClosed := true), Silent))
  {
    hide StoreInv, Window, FreeInv, InnerInv, EofInv, Root, SeekInv, RequestInv, SleepInv;
  }

  lemma AddOk(c: Config, s: State, lseek: FileReply, write: FileReply)
    requires Inv(c, s) && s.filler.Add? && !s.locked
    ensures Good(c, s, (FillerAdd(c, s, s.filler.buf, lseek, write), Silent))
  {
    hide Inv, Good, Root, Flushed, Grown, Clash;
    var f, buf := s.store, s.filler.buf;
    PhysicalOk(c, s);
    if lseek.Breaks? {
      FaultOk(c, s, f.(retries := f.retries + 1));
    } else if f.last + |buf| >= c.maxCapacity {
      if c.shared || c.maxCapacity < |buf| {
        GivenUpOk(c, s);
      } else {
        FlushOk(c, s);
      }
    } else {
      match write {
        case Breaks => FaultOk(c, s, f.(fdPos := f.last, cachePhysical := f.last, retries := f.retries + 1));
        case Works(n) => GrowthOk(c, s, Min(n, |buf|));
      }
    }
  }

  lemma PhysicalOk(c: Config, s: State)
    requires Inv(c, s)
    ensures 0 <= s.store.last == s.store.cachePhysical
  {
    hide Window, FreeInv, InnerInv, EofInv, Root, SeekInv, RequestInv, SleepInv, TreesStored, TreesApart;
  }

  lemma FillerOk(c: Config, s: State, interrupted: bool, reply: Reply, lseek: FileReply, write: FileReply)
    requires Inv(c, s) && HonestReply(reply)
    requires !Desync(s, FillerRun(interrupted, reply, lseek, write))
    requires !(s.filler.Handover? && !s.locked)
    ensures Good(c, s, (RunFiller(c, s, interrupted, reply, lseek, write), Silent))
  {
    hide Inv, Good, FillerHandover, FillerSkip, FillerOpen, FillerSeek, FillerFetch, FillerAdd, FarEnough;
    match s.filler {
      case Top =>
        if s.abort || interrupted { HaltOk(c, s); } else { ControlOk(c, s, Poll); }
      case Halted => HaltedOk(c, s);
      case Poll => ControlOk(c, s, if s.seek.request then Handover else Check);
      case Handover => StutterOk(c, s);
      case Check => ControlOk(c, s, if FarEnough(c, s) then GoSleep else Skip);
      case GoSleep =>
        if s.locked { StutterOk(c, s); } else { SignalOk(c, s, Asleep); }
      case Skip => FillerSkipOk(c, s);
      case SeekInner(_) =>
        if s.asyncOpen { OpenOk(c, s, reply); } else { FillerSeekOk(c, s, reply); }
      case Fetch(_) =>
        if s.asyncOpen { OpenOk(c, s, reply); }
        else if reply.Fail? || s.innerPos >= |c.Src()| { FetchEndOk(c, s, reply); }
        else { FetchDataOk(c, s, reply.n); }
      case Report(_) => ReportStepOk(c, s);
      case Stopping => StopOk(c, s);
      case Add(_) =>
        if s.locked { StutterOk(c, s); } else { AddOk(c, s, lseek, write); }
      case Notify =>
        if s.locked { StutterOk(c, s); } else { SignalOk(c, s, Top); }
      case Exiting =>
        if s.locked { StutterOk(c, s); } else { ExitOk(c, s); }
      case _ => StutterOk(c, s);
    }
  }

  lemma StutterOk(c: Config, s: State)
    requires Inv(c, s)
    ensures Good(c, s, (s, Silent))
  {
  }

  lemma ReaderOk(c: Config, s: State, interrupted: bool, n: nat)
    requires Inv(c, s)
    ensures Good(c, s, RunReader(c, s, interrupted, n))
  {
    hide Inv, Good, ReadCached, FarEnough;
    match s.reader {
      case ReadLock(_) => LockOk(c, s, interrupted, n);
      case ReadWoken(_) => LockOk(c, s, interrupted, n);
      case SeekLock(_) => LockOk(c, s, interrupted, n);
      case SeekWoken(_) => LockOk(c, s, interrupted, n);
      case ReadHead(_) => HeadOk(c, s, interrupted, n);
      case ReadFile(_) => FileOk(c, s, interrupted, n);
      case ReadEof(_) => EofOk(c, s, interrupted, n);
      case ReadDone(_) => DoneOk(c, s, interrupted, n);
      case SeekHead(_) => SeekHeadOk(c, s, interrupted, n);
      case _ => StutterOk(c, s);
    }
  }

  /** Every step of either thread, in every interleaving, keeps the invariant and
      is a step of the plain source, except for a fetch while the recorded
      position of the inner source is false. */
  lemma StepOk(c: Config, s: State, step: Step)
    requires Inv(c, s) && Enabled(s, step) && !Desync(s, step)
    ensures var (s', ev) := Next(c, s, step);
      Inv(c, s') && PlainStep(c, s'.logicalSize, s'.resized, s'.abort, Late(s, step), ClientPlace(s), ev, ClientPlace(s'))
  {
    hide Inv;
    match step {
      case CallRead(_) => CallOk(c, s, step);
      case CallSeek(pos, whence) => CallSeekOk(c, s, pos, whence);
      case ReaderRun(interrupted, n) => ReaderOk(c, s, interrupted, n);
      case ReaderSpurious => CallOk(c, s, step);
      case FillerRun(interrupted, reply, lseek, write) =>
        if s.filler.Handover? && !s.locked {
          assert RunFiller(c, s, interrupted, reply, lseek, write) == FillerHandover(s);
          HandoverOk(c, s);
        } else {
          FillerOk(c, s, interrupted, reply, lseek, write);
        }
      case Close => CloseOk(c, s);
      case FillerSpurious => SpuriousOk(c, s);
    }
    hide RunReader, RunFiller, Next, PlainStep;
  }

  // ----- runs -----

  /** A run from an index that fits the file: the states it passes through, the
      steps between them, and what the caller sees of each. Nothing is fetched
      while the recorded position of the inner source is false. */
  ghost predicate IsRun(c: Config, states: seq<State>, steps: seq<Step>, events: seq<Event>) {
    && |states| == |steps| + 1 && |events| == |steps|
    && (exists store, size, late :: StoreInv(c, store) && states[0] == Init(store, size, late))
    && forall k :: 0 <= k < |steps| ==> StepAt(c, states, steps, events, k)
  }

  ghost predicate StepAt(c: Config, states: seq<State>, steps: seq<Step>, events: seq<Event>, k: nat)
    requires k < |steps| == |events| && |states| == |steps| + 1
  {
    IsStep(c, states[k], steps[k], states[k + 1], events[k])
  }

  ghost predicate IsStep(c: Config, s: State, step: Step, s': State, ev: Event) {
    Enabled(s, step) && !Desync(s, step) && Next(c, s, step) == (s', ev)
  }

  lemma {:induction false} RunInv(c: Config, states: seq<State>, steps: seq<Step>, events: seq<Event>, k: nat)
    requires IsRun(c, states, steps, events) && k < |states|
    ensures Inv(c, states[k])
    decreases k
  {
    hide Inv, Next, Enabled, Desync, Init, StoreInv;
    if k == 0 {
      var store, size, late :| StoreInv(c, store) && states[0] == Init(store, size, late);
      InitInv(c, store, size, late);
    } else {
      RunInv(c, states, steps, events, k - 1);
      assert StepAt(c, states, steps, events, k - 1);
      StepOk(c, states[k - 1], steps[k - 1]);
    }
  }

  /** Refinement: what the caller sees in a run is what a plain source with a
      position would have done. Every delivered byte is the byte of the source
      at the caller's position, and a read that ends early says why. */
  lemma RunRefinesPlainSource(c: Config, states: seq<State>, steps: seq<Step>, events: seq<Event>, k: nat)
    requires IsRun(c, states, steps, events) && k < |steps|
    ensures ClientPlace(states[0]) == Place(0, None)
    ensures var s' := states[k + 1];
      PlainStep(c, s'.logicalSize, s'.resized, s'.abort, Late(states[k], steps[k]), ClientPlace(states[k]), events[k],
                ClientPlace(s'))
  {
    RunInv(c, states, steps, events, k);
    assert StepAt(c, states, steps, events, k);
    StepOk(c, states[k], steps[k]);
    hide Inv, Next, Enabled, Desync, StoreInv, PlainStep;
  }

  /** In every state of every run, each position between the reader's and the
      filler's, whichever is ahead, is in the file with the right byte. */
  lemma BetweenIsCached(c: Config, states: seq<State>, steps: seq<Step>, events: seq<Event>, k: nat, p: nat)
    requires IsRun(c, states, steps, events) && k < |states|
    requires var s := states[k]; Min(s.readLogical, s.fileLogical) <= p < Max(s.readLogical, s.fileLogical)
    ensures var f := states[k].store;
      var e := Covering(Root(c, f), p);
      && e.Some? && e.value.logical <= p < e.value.logical + e.value.size
      && 0 <= e.value.physical + (p - e.value.logical) < f.last <= |f.file|
      && p < |c.Src()| && f.file[e.value.physical + (p - e.value.logical)] == c.Src()[p]
  {
    RunInv(c, states, steps, events, k);
    BetweenHere(c, states[k], p);
    hide *;
  }

  lemma BetweenHere(c: Config, s: State, p: nat)
    requires Inv(c, s) && Min(s.readLogical, s.fileLogical) <= p < Max(s.readLogical, s.fileLogical)
    ensures var f := s.store;
      var e := Covering(Root(c, f), p);
      && e.Some? && e.value.logical <= p < e.value.logical + e.value.size
      && 0 <= e.value.physical + (p - e.value.logical) < f.last <= |f.file|
      && p < |c.Src()| && f.file[e.value.physical + (p - e.value.logical)] == c.Src()[p]
  {
    hide FreeInv, InnerInv, EofInv, SeekInv, RequestInv, SleepInv, EntryStored, Matches, Covering, Root, Elems, TreeOk, Ordered, LogicallyDisjoint;
    var f := s.store;
    var t := Root(c, f);
    ShapeOk(c, f);
    var e := Covering(t, p).value;
    CoveringSpec(t, p, e);
    StoredEntry(c, f, e);
    StoredByte(c.Src(), f.file, f.last, e, p);
  }

  lemma StoredEntry(c: Config, f: Store, e: Entry)
    requires StoreInv(c, f) && e in Elems(Root(c, f))
    ensures EntryStored(c.Src(), f.file, f.last, e)
  {
    ShapeOk(c, f);
  }

  lemma StoredByte(src: seq<byte>, file: seq<byte>, last: int, e: Entry, p: int)
    requires EntryStored(src, file, last, e) && e.logical <= p < e.logical + e.size
    ensures var at := e.physical + (p - e.logical);
      0 <= at < last <= |file| && 0 <= p < |src| && file[at] == src[p]
  {
    var part := file[e.physical..e.physical + e.size];
    assert part[p - e.logical] == file[e.physical + (p - e.logical)];
    assert part == src[e.logical..e.logical + |part|];
    assert src[e.logical..e.logical + |part|][p - e.logical] == src[p];
  }

  /** The used part of the file is as long as all trees of the index together
      say, and their entries share no byte of it. */
  lemma AccountsAgree(c: Config, states: seq<State>, steps: seq<Step>, events: seq<Event>, k: nat)
    requires IsRun(c, states, steps, events) && k < |states|
    ensures var f := states[k].store;
      && f.last == TotalSize(f.trees) && 0 <= f.last <= |f.file|
      && TreesApart(f.trees) && TreesStored(c.sources, f.file, f.last, f.trees)
      && forall n :: n in f.trees ==> PhysicallyDisjoint(Elems(f.trees[n].root))
  {
    RunInv(c, states, steps, events, k);
    var f := states[k].store;
    hide Window, FreeInv, InnerInv, EofInv, Root, SeekInv, RequestInv, SleepInv, TreesApart;
    forall n | n in f.trees
      ensures PhysicallyDisjoint(Elems(f.trees[n].root))
    {
      assert TreeOk(c.sources[n], f.file, f.last, f.trees[n].root);
    }
    hide TreeOk, PhysicallyDisjoint, TotalSize;
  }

  /** The file does not grow past the capacity, unless it was larger before. */
  lemma CapacityKept(c: Config, states: seq<State>, steps: seq<Step>, events: seq<Event>, k: nat)
    requires IsRun(c, states, steps, events) && k < |states|
    ensures |states[k].store.file| <= Max(c.oldSize, c.maxCapacity)
  {
    RunInv(c, states, steps, events, k);
    hide Window, FreeInv, InnerInv, EofInv, Root, SeekInv, RequestInv, SleepInv, Coherent;
  }

  /** Neither thread waits for a wake-up that nobody will send, as long as the
      filler did not leave over an error code of the inner source (`quit`). A
      close waits for ever exactly when it came between the filler's test and
      its going to sleep (`missed`). */
  lemma NoLostWakeUp(c: Config, states: seq<State>, steps: seq<Step>, events: seq<Event>, k: nat)
    requires IsRun(c, states, steps, events) && k < |states|
    ensures var s := states[k];
      && !(ReaderAsleep(s.reader) && s.filler.Asleep?)
      && (ReaderAsleep(s.reader) && s.filler.Exited? ==> s.quit)
      && (s.reader.CloseSleep? && s.filler.Asleep? ==> s.missed)
      && (s.reader.CloseSleep? && s.missed ==> WillSleep(c, s.filler, s.seek.request, FarEnough(c, s)))
      && (s.reader.CloseSleep? ==> !s.filler.Exited? && s.abort)
  {
    RunInv(c, states, steps, events, k);
    hide StoreInv, Window, FreeInv, InnerInv, EofInv, Root, SeekInv, RequestInv;
  }
}
