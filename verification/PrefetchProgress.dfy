/** The prefetching cache does its work: what is missing is fetched, what is fetched
    is kept, and what is kept is read. */
module PrefetchProgress {
  import opened Common
  import opened AvlTree
  import opened CacheIndex
  import opened CacheStorage
  import opened Source
  import opened PrefetchProtocol
  import opened PrefetchProof
  import opened PrefetchRuns

  /** The filler fetches at the first position behind its own that is not cached, as
      long as there is room up to the next entry and the end is not known to be there. */
  lemma MissingIsFetched(c: Config, s: State)
    requires Inv(c, s) && s.filler.Skip?
    ensures var s', t := FillerSkip(c, s), Root(c, s.store);
      && s.fileLogical <= s'.fileLogical && s'.store == s.store
      && (s'.eof ==> s'.fileLogical >= s.logicalSize || s'.fileLogical == s.fileLogicalEnd > 0)
      && (if s'.filler.SeekInner? || s'.filler.Fetch? then Covering(t, s'.fileLogical).None?
          else s'.filler.Top? && (s'.eof || Behind(t, s.fileLogical).Some?))
      && (Covering(t, s.fileLogical).None? ==> s'.fileLogical == s.fileLogical)
  {
    SkipFacts(c, s);
    assert !s.eof by {
      hide StoreInv, Window, FreeInv, InnerInv, Root, SeekInv, RequestInv, SleepInv, CauseOk;
    }
    hide Inv, Gap, Window, Covering, Elems;
  }

  /** The inner source is read where the filler works, and what it delivers is added. */
  lemma DeliveredIsAdded(c: Config, s: State, n: nat)
    requires Inv(c, s) && s.filler.Fetch? && s.innerPos == s.fileLogical < |c.Src()|
    ensures var s' := FillerFetch(c, s, s.filler.toCopy, Deliver(n));
      && s'.filler.Add? && s'.filler.buf != [] && s'.fileLogical == s.fileLogical
      && |s'.filler.buf| == Min(Min(Max(n, 1), s.filler.toCopy), |c.Src()| - s.fileLogical)
      && Matches(c.Src(), s.fileLogical, s'.filler.buf)
  {
    RoomHere(c, s);
    hide Inv;
    var len := Min(Min(Max(n, 1), s.filler.toCopy), |c.Src()| - s.innerPos);
    var buf := c.Src()[s.innerPos..s.innerPos + len];
    assert |buf| == len > 0 && Matches(c.Src(), s.innerPos, buf);
    hide Matches, Fetched;
    FetchedIs(s, buf);
    assert FillerFetch(c, s, s.filler.toCopy, Deliver(n)) == Fetched(s, buf);
    hide FillerFetch;
  }

  lemma FetchedIs(s: State, buf: seq<byte>)
    ensures Fetched(s, buf).filler == Add(buf) && Fetched(s, buf).fileLogical == s.fileLogical
  {
  }

  lemma RoomHere(c: Config, s: State)
    requires Inv(c, s) && s.filler.Fetch?
    ensures s.filler.toCopy > 0
  {
    hide StoreInv, Window, InnerInv, EofInv, Root, SeekInv, RequestInv, SleepInv;
  }

  /** If the file does what it is asked and has room, and no entry begins there, what
      was fetched is in the index from then on, and the reader is woken up next. */
  lemma FetchedIsKept(c: Config, s: State, n: nat)
    requires Inv(c, s) && s.filler.Add? && !s.locked && n > 0
    requires s.store.last + |s.filler.buf| < c.maxCapacity && !HasKey(Elems(Root(c, s.store)), s.fileLogical)
    ensures var s' := FillerAdd(c, s, s.filler.buf, Works(0), Works(n));
      && s'.fileLogical == s.fileLogical + Min(n, |s.filler.buf|) > s.fileLogical && s'.filler.Notify?
      && forall p :: s.fileLogical <= p < s'.fileLogical ==> Covering(Root(c, s'.store), p).Some?
  {
    PhysicalOk(c, s);
    var buf, f := s.filler.buf, s.store;
    var k: nat := Min(n, |buf|);
    var f' := Grown(c, f, s.fileLogical, buf, k);
    AddingHere(c, s);
    hide SeekInv, RequestInv, SleepInv, EofInv, StoreInv, Window, Gap, Matches, Root, Clash, Grown, Elems, Ordered, HasKey;
    GrownOk(c, f, s.fileLogical, buf, k);
    ShapeOk(c, f);
    ShapeOk(c, f');
    ClashExactly(Root(c, f), s.fileLogical, f.last, k);
    Nowhere(Root(c, f), s.fileLogical);
    WindowGrown(Root(c, f), Root(c, f'), s.fileLogical, s.fileLogical, f.last, k);
    WindowFrom(Root(c, f'), s.fileLogical, s.fileLogical + k);
    hide Inv, Covering;
  }

  lemma AddingHere(c: Config, s: State)
    requires Inv(c, s) && s.filler.Add?
    ensures |s.filler.buf| > 0 && Matches(c.Src(), s.fileLogical, s.filler.buf) && Gap(Elems(Root(c, s.store)), s.fileLogical, |s.filler.buf|)
    ensures StoreInv(c, s.store)
  {
    hide StoreInv, Window, EofInv, Root, SeekInv, RequestInv, SleepInv, Gap, Matches;
  }

  lemma Nowhere(t: Tree, pos: nat)
    ensures Window(t, pos, pos)
  {
  }

  lemma WindowFrom(t: Tree, a: nat, b: nat)
    requires Window(t, a, b)
    ensures forall p :: a <= p < b ==> Covering(t, p).Some?
  {
  }

  /** A reader at a position that is cached gets at least one byte more. */
  lemma CachedIsRead(c: Config, s: State, n: nat)
    requires Inv(c, s) && s.reader.ReadFile? && Covering(Root(c, s.store), s.readLogical).Some?
    ensures var s' := ReadCached(c, s, s.reader.req, n);
      && s'.readLogical > s.readLogical && Reading(s'.reader)
      && |s'.reader.req.out| - |s.reader.req.out| == s'.readLogical - s.readLogical
      && (s'.reader.ReadDone? <==> s'.reader.req.toRead == 0)
  {
    var req, e := s.reader.req, Covering(Root(c, s.store), s.readLogical).value;
    AskedFor(c, s);
    FileReadOk(c, s.store, e, s.readLogical, req.toRead, n);
    var (bytes, at) := FileRead(s.store, e, s.readLogical, req.toRead, n);
    hide Inv, Covering, FileRead, Root;
    assert ReadCached(c, s, req, n) == Taken(s, req, bytes, at);
    TakenReads(s, req, bytes, at);
    hide Taken, ReadCached;
  }

  lemma TakenReads(s: State, req: Request, bytes: seq<byte>, at: nat)
    requires |bytes| <= req.toRead
    ensures var s' := Taken(s, req, bytes, at);
      && s'.readLogical == s.readLogical + |bytes| && (s'.reader.ReadDone? || s'.reader.ReadSleep?)
      && s'.reader.req.out == req.out + bytes && s'.reader.req.toRead == req.toRead - |bytes|
      && (s'.reader.ReadDone? <==> s'.reader.req.toRead == 0)
  {
    hide WakeFiller;
  }

  lemma AskedFor(c: Config, s: State)
    requires Inv(c, s) && s.reader.ReadFile?
    ensures s.reader.req.toRead > 0 && StoreInv(c, s.store)
  {
    hide StoreInv, Window, FreeInv, InnerInv, EofInv, Root, SeekInv, SleepInv, Matches;
  }

  /** A seek that is asked for is seen in the next turn of the filler and then handed
      over, whoever holds its thread up in between; its caller is woken up. */
  lemma SeekIsServed(c: Config, s: State, step: Step)
    requires step.FillerRun? && s.seek.request
    ensures var s' := Next(c, s, step).0;
      && (s.filler.Poll? ==> s'.filler.Handover? && s'.seek == s.seek)
      && (s.filler.Handover? && !s.locked ==>
            && s'.seek.completed && s'.seek.ret == s'.readLogical == s'.fileLogical == s.seek.target
            && !s'.reader.SeekSleep? && !s'.seek.request)
  {
  }

  /** The filler rests only when it is far enough ahead of the reader or has met an
      end, and no read leaves it asleep that was short or brought the reader nearer. */
  lemma RestsExactly(c: Config, s: State, step: Step)
    requires step.FillerRun? || step.ReaderRun?
    ensures var s', ahead := Next(c, s, step).0, s.fileLogical - s.readLogical;
      && (step.FillerRun? && s.filler.Check? ==> (s'.filler.GoSleep? <==> ahead > c.forwards || s.eof))
      && (step.ReaderRun? && s.reader.ReadDone? && s'.filler.Asleep? ==>
            s.reader.req.ret == s.reader.req.size && (ahead > c.forwards || s.eof))
  {
    if step.ReaderRun? && s.reader.ReadDone? {
      hide FarEnough;
      DoneWakes(c, s, step.interrupted, step.n);
      hide RunReader;
    } else if step.FillerRun? && s.filler.Check? {
      assert Next(c, s, step).0.filler == if FarEnough(c, s) then GoSleep else Skip;
    } else {
      hide RunReader, RunFiller;
    }
  }

  lemma DoneWakes(c: Config, s: State, interrupted: bool, n: nat)
    requires s.reader.ReadDone?
    ensures RunReader(c, s, interrupted, n).0.filler.Asleep? ==>
      s.reader.req.ret == s.reader.req.size && (s.fileLogical - s.readLogical > c.forwards || s.eof)
  {
  }
}
