/** Safety of the prefetching cache: every run is a run of the plain source,
    and what it does not keep is characterized exactly. */
module PrefetchProof {
  import opened Common
  import opened AvlTree
  import opened CacheIndex
  import opened Source
  import opened PrefetchProtocol

  // ----- the specification: a source with a position -----

  /** Where the plain source stands. `asked` is the target of a seek that was
      interrupted before it was served: the source may still move there, once. */
  datatype Place = Place(pos: int, asked: Option<nat>)

  /** What a caller may see, and what the place is afterwards. `limit` is the size
      the source claims. A read that ends early says why, and the reasons are as
      they claim. Calls fail after an interruption. An interrupted seek has moved
      the source or leaves its target behind; `late` says that the step moves it
      there after all. */
  ghost predicate PlainStep(c: Config, limit: int, resized: bool, abort: bool, late: bool, p: Place, ev: Event, p': Place) {
    match ev
    case Silent =>
      if late then abort && p.asked.Some? && p' == Place(p.asked.value, None)
      else p' == p || p' == p.(asked := None)
    case DidSize(ret) => p' == p && ret == limit
    case DidRead(size, ret, out, why) =>
      && Matches(c.Src(), p.pos, out) && p' == p.(pos := p.pos + |out|)
      && ret <= size && (ret == 0 ==> size == 0)
      && (if ret >= 0 then |out| == ret else ret == AVERROR_EXIT || out == [])
      && (0 <= ret < size || ret == AVERROR_EOF ==> why.Some?)
      && (why.Some? ==> WhyOk(c, why.value, p'.pos, limit, resized, abort, ret))
      && (p.asked.Some? ==> abort && out == [] && (ret == AVERROR_EXIT || size == 0))
    case DidSeek(target, ret) =>
      if target < 0 then ret == target && p' == p
      else if ret >= 0 then ret == target && p' == Place(target, None)
      else ret == AVERROR_EXIT && abort && (p' == Place(p.pos, Some(target)) || p' == Place(target, None))
  }

  /** The first two reasons are ends of the source. The next two are failures of
      the inner source before its end; the first of these is never told to the
      caller, who gets AVERROR_EOF, and the second is missed when the caller looks
      between the two assignments that report it. */
  predicate WhyOk(c: Config, why: Cause, pos: int, limit: int, resized: bool, abort: bool, ret: int) {
    match why
    case SizeReached => pos >= limit && (ret < 0 ==> ret == AVERROR_EOF || abort)
    case EndReached => pos >= |c.Src()| && (ret < 0 ==> ret == AVERROR_EOF)
    case SeekFailed => (pos < limit || resized) && (ret < 0 ==> ret == AVERROR_EOF)
    case ReadFailed(code) => (pos < limit || resized) && (ret < 0 ==> ret == code || ret == AVERROR_EOF)
    case Interrupted => pos < limit && abort
  }

  // ----- the invariant -----

  predicate Reading(r: Reader) {
    r.ReadLock? || r.ReadHead? || r.ReadFile? || r.ReadEof? || r.ReadSleep? || r.ReadWoken? || r.ReadDone?
  }

  predicate Seeking(r: Reader) {
    r.SeekHead? || r.SeekSleep? || r.SeekWoken?
  }

  predicate HoldsMutex(r: Reader) {
    r.ReadHead? || r.ReadFile? || r.ReadEof? || r.ReadDone? || r.SeekHead?
  }

  predicate ReaderAsleep(r: Reader) {
    r.ReadSleep? || r.SeekSleep?
  }

  predicate Working(f: Filler) {
    f.Skip? || f.SeekInner? || f.Fetch? || f.Add? || f.Notify?
  }

  /** The position of the caller: it moves when a call returns. */
  function ClientPos(s: State): int {
    if Reading(s.reader) then s.readLogical - |s.reader.req.out|
    else if Seeking(s.reader) then s.reader.start
    else s.readLogical
  }

  function ClientPlace(s: State): Place {
    Place(ClientPos(s), if s.seek.request && !Seeking(s.reader) then Some(s.seek.target) else None)
  }

  /** All bytes between the two positions are cached, whichever is ahead. */
  ghost predicate Window(t: Tree, a: int, b: int) {
    forall p :: Min(a, b) <= p < Max(a, b) ==> Covering(t, p).Some?
  }

  ghost predicate StoreInv(c: Config, f: Store) {
    && c.curNo in c.sources && c.curNo in f.trees
    && Coherent(c.sources, f.file, f.last, f.trees)
    && f.cachePhysical == f.last
    && |f.file| <= Max(c.oldSize, c.maxCapacity)
  }

  /** The place where the filler works is not cached, nor the one where an end
      was met. */
  ghost predicate FreeInv(t: Tree, pos: nat, filler: Filler, settled: bool) {
    && (filler.SeekInner? || filler.Fetch? ==> filler.toCopy > 0 && Gap(Elems(t), pos, filler.toCopy))
    && (filler.Add? ==> |filler.buf| > 0 && Gap(Elems(t), pos, |filler.buf|))
    && (settled ==> Covering(t, pos).None?)
  }

  ghost predicate InnerInv(c: Config, inner: int, innerPos: nat, pos: nat, end: nat, filler: Filler) {
    && (inner == innerPos || inner == 0)
    && (filler.SeekInner? ==> pos != inner && (pos == end ==> pos == 0))
    && (filler.Fetch? ==> pos == inner)
    && (filler.Add? ==> innerPos == pos + |filler.buf| && Matches(c.Src(), pos, filler.buf))
    && (end > 0 ==> end >= |c.Src()|)
  }

  ghost predicate EofInv(c: Config, eof: bool, ioError: int, cause: Cause, pos: nat, limit: int, resized: bool, abort: bool,
                         filler: Filler) {
    && (if eof then CauseOk(c, ioError, cause, pos, limit, resized, abort) else ioError == 0)
    && (Working(filler) ==> !eof)
    && (filler.Report? ==> eof && ioError == 0 && ReportOk(cause, filler.code))
    && (filler.Halted? ==> abort) && (filler.Stopping? ==> eof && cause == Interrupted && abort)
    && (filler.SeekInner? || filler.Fetch? ==> pos < limit || resized)
  }

  predicate ReportOk(cause: Cause, code: int) {
    match cause
    case EndReached => code == 0 || code == AVERROR_EOF
    case ReadFailed(error) => code == error
    case _ => false
  }

  ghost predicate CauseOk(c: Config, ioError: int, cause: Cause, pos: nat, limit: int, resized: bool, abort: bool) {
    match cause
    case SizeReached => pos >= limit && ioError == 0
    case EndReached => pos >= |c.Src()| && (ioError == 0 || ioError == AVERROR_EOF)
    case SeekFailed => (pos < limit || resized) && ioError == 0
    case ReadFailed(code) => (pos < limit || resized) && code < 0 && code != AVERROR_EOF && (ioError == 0 || ioError == code)
    case Interrupted => ioError <= 0 && abort
  }

  /** A request that nobody waits for was left by an interrupted seek. */
  ghost predicate SeekInv(readLogical: nat, seek: Seek, abort: bool, r: Reader, f: Filler) {
    && (f.Handover? ==> seek.request)
    && (seek.request && !abort ==> Seeking(r))
    && (seek.request && Reading(r) ==> r.req.out == [] && (r.ReadLock? || r.ReadHead? || (r.ReadDone? && Refused(r.req))))
    && (Seeking(r) ==> seek.request == !seek.completed)
    && (Seeking(r) && seek.completed ==> seek.ret == seek.target == readLogical)
    && (Seeking(r) && !seek.completed ==> readLogical == r.start)
  }

  predicate Refused(req: Request) {
    req.ret == AVERROR_EXIT || req.size == 0
  }

  ghost predicate RequestInv(c: Config, r: Reader, readLogical: nat, t: Tree, eof: bool, limit: int, resized: bool, abort: bool) {
    Reading(r) ==>
      var req := r.req;
      && req.toRead + |req.out| == req.size
      && Matches(c.Src(), readLogical - |req.out|, req.out)
      && (!r.ReadDone? ==> req.ret == |req.out| && req.why.None?)
      && (r.ReadFile? || r.ReadEof? || r.ReadSleep? ==> req.toRead > 0)
      && (r.ReadEof? ==> Covering(t, readLogical).None?)
      && (r.ReadDone? ==> ReturnOk(req))
      && (r.ReadDone? && req.why.Some? ==> eof && WhyOk(c, req.why.value, readLogical, limit, resized, abort, req.ret))
  }

  /** What a finished read may return. */
  predicate ReturnOk(req: Request) {
    && req.ret <= req.size && (req.ret == 0 ==> req.size == 0)
    && (if req.ret >= 0 then |req.out| == req.ret else req.ret == AVERROR_EXIT || req.out == [])
    && (0 <= req.ret < req.size || req.ret == AVERROR_EOF ==> req.why.Some?)
  }

  /** The mutex, and who may sleep. */
  ghost predicate SleepInv(c: Config, locked: bool, r: Reader, f: Filler, abort: bool, request: bool, quit: bool, missed: bool, far: bool) {
    && locked == HoldsMutex(r)
    && (f.Exited? || f.Exiting? || f.Stopping? || f.Halted? ==> abort || quit)
    && (ReaderAsleep(r) ==> !f.Asleep? && (quit || !f.Exited?))
    && (r.ReadFile? || r.ReadEof? ==> quit || !f.Exited?)
    && (r.CloseSleep? ==> abort && !f.Exited? && missed == WillSleep(c, f, request, far))
  }

  ghost predicate Inv(c: Config, s: State) {
    var t := Root(c, s.store);
    && StoreInv(c, s.store)
    && Window(t, s.readLogical, s.fileLogical)
    && FreeInv(t, s.fileLogical, s.filler, Settled(s))
    && InnerInv(c, s.fileInner, s.innerPos, s.fileLogical, s.fileLogicalEnd, s.filler)
    && EofInv(c, s.eof, s.ioError, s.cause, s.fileLogical, s.logicalSize, s.resized, s.abort, s.filler)
    && SeekInv(s.readLogical, s.seek, s.abort, s.reader, s.filler)
    && RequestInv(c, s.reader, s.readLogical, t, s.eof, s.logicalSize, s.resized, s.abort)
    && SleepInv(c, s.locked, s.reader, s.filler, s.abort, s.seek.request, s.quit, s.missed, FarEnough(c, s))
  }

  predicate Settled(s: State) {
    s.eof && s.cause != Interrupted
  }

  lemma InitInv(c: Config, store: Store, logicalSize: int, asyncOpen: bool)
    requires StoreInv(c, store)
    ensures Inv(c, Init(store, logicalSize, asyncOpen)) && ClientPlace(Init(store, logicalSize, asyncOpen)) == Place(0, None)
  {
    hide Coherent;
  }

  /** The recorded position of the inner source is not the real one. */
  predicate Astray(s: State) {
    s.fileInner != s.innerPos
  }

  /** The one step that breaks the cache: the inner source delivers, or ends,
      somewhere else than where the filler takes it to be. */
  predicate Desync(s: State, step: Step) {
    step.FillerRun? && s.filler.Fetch? && !s.asyncOpen && step.reply.Deliver? && s.innerPos != s.fileLogical
  }

  /** The step moves a caller who does not wait for it: a request was seen before
      the seek was interrupted, and the hand-over comes after its return. */
  predicate Late(s: State, step: Step) {
    step.FillerRun? && s.filler.Handover? && !s.locked && !Seeking(s.reader)
  }

  ghost predicate Good(c: Config, s: State, o: (State, Event)) {
    Inv(c, o.0) && PlainStep(c, o.0.logicalSize, o.0.resized, o.0.abort, false, ClientPlace(s), o.1, ClientPlace(o.0))
  }

  // ----- steps of the reader -----

  /** A signalled filler starts over; nothing else depends on it. */
  lemma WakeOk(c: Config, s: State, f: Filler)
    requires Inv(c, s) && (f == WakeFiller(s.filler) || (s.filler.Asleep? && f.Top?))
    ensures FreeInv(Root(c, s.store), s.fileLogical, f, Settled(s))
    ensures InnerInv(c, s.fileInner, s.innerPos, s.fileLogical, s.fileLogicalEnd, f)
    ensures EofInv(c, s.eof, s.ioError, s.cause, s.fileLogical, s.logicalSize, s.resized, s.abort, f)
  {
    hide StoreInv, Window, Gap, Covering, Matches, Root, CauseOk, ReportOk, SeekInv, RequestInv, SleepInv;
  }

  lemma CallOk(c: Config, s: State, step: Step)
    requires Inv(c, s) && Enabled(s, step)
    requires step.CallRead? || step.ReaderSpurious?
    ensures Good(c, s, Next(c, s, step))
  {
    MatchesEmpty(c.Src(), s.readLogical);
    hide StoreInv, Window, FreeInv, InnerInv, EofInv, Matches, Root, WhyOk, WillSleep;
  }

  lemma CallSeekOk(c: Config, s: State, pos: int, whence: Whence)
    requires Inv(c, s) && s.reader.Idle?
    ensures Good(c, s, SeekTo(s, pos, whence))
  {
    var target := SeekResult(s.readLogical, whence, pos, s.logicalSize);
    if !whence.Size? && target >= 0 {
      SeekStarts(c, s, target);
    } else {
      SeekRefused(c, s, target);
    }
    hide Inv, PlainStep, SeekResult;
  }

  lemma SeekStarts(c: Config, s: State, target: nat)
    requires Inv(c, s) && s.reader.Idle?
    ensures Good(c, s, (s.(reader := SeekLock(target)), Silent))
  {
    hide StoreInv, Window, FreeInv, InnerInv, EofInv, Matches, Root, WhyOk, WillSleep;
  }

  lemma SeekRefused(c: Config, s: State, target: int)
    requires Inv(c, s) && s.reader.Idle?
    ensures Good(c, s, (s, DidSize(s.logicalSize)))
    ensures target < 0 ==> Good(c, s, (s, DidSeek(target, target)))
  {
    hide Inv;
  }

  /** An interruption makes no difference to what an end may report. */
  lemma AbortOk(c: Config, s: State)
    requires Inv(c, s)
    ensures EofInv(c, s.eof, s.ioError, s.cause, s.fileLogical, s.logicalSize, s.resized, true, s.filler)
  {
    hide StoreInv, Window, FreeInv, InnerInv, Root, SeekInv, RequestInv, SleepInv;
  }

  lemma CloseOk(c: Config, s: State)
    requires Inv(c, s) && Enabled(s, Close)
    ensures Good(c, s, Next(c, s, Close))
  {
    AbortOk(c, s);
    CloseWakes(c, s);
    hide StoreInv, Window, FreeInv, InnerInv, EofInv, Matches, Root, WhyOk, FarEnough;
  }

  /** Nothing about the inner source and the end depends on a filler that is not
      at work. */
  lemma RestOk(c: Config, s: State, f: Filler)
    requires Inv(c, s) && !Working(f) && !f.Report? && !f.Stopping?
    ensures FreeInv(Root(c, s.store), s.fileLogical, f, Settled(s))
    ensures InnerInv(c, s.fileInner, s.innerPos, s.fileLogical, s.fileLogicalEnd, f)
    ensures EofInv(c, s.eof, s.ioError, s.cause, s.fileLogical, s.logicalSize, s.resized, true, f)
    ensures !f.Halted? ==> EofInv(c, s.eof, s.ioError, s.cause, s.fileLogical, s.logicalSize, s.resized, s.abort, f)
  {
    AbortOk(c, s);
    hide StoreInv, Window, Gap, Covering, Matches, Root, CauseOk, ReportOk, SeekInv, RequestInv, SleepInv;
  }

  lemma CloseWakes(c: Config, s: State)
    requires Inv(c, s)
    ensures FreeInv(Root(c, s.store), s.fileLogical, WakeFiller(s.filler), Settled(s))
    ensures InnerInv(c, s.fileInner, s.innerPos, s.fileLogical, s.fileLogicalEnd, WakeFiller(s.filler))
    ensures EofInv(c, s.eof, s.ioError, s.cause, s.fileLogical, s.logicalSize, s.resized, true, WakeFiller(s.filler))
  {
    AbortOk(c, s);
    if s.filler.Asleep? {
      RestOk(c, s, Top);
    }
    hide StoreInv, Window, Root, SeekInv, RequestInv, SleepInv, FreeInv, InnerInv, EofInv;
  }

  lemma SpuriousOk(c: Config, s: State)
    requires Inv(c, s) && Enabled(s, FillerSpurious)
    ensures Good(c, s, Next(c, s, FillerSpurious))
  {
    RestOk(c, s, Top);
    hide StoreInv, Window, FreeInv, InnerInv, EofInv, RequestInv, Matches, Root, WhyOk, FarEnough;
  }

  lemma LockOk(c: Config, s: State, interrupted: bool, n: nat)
    requires Inv(c, s)
    requires s.reader.ReadLock? || s.reader.ReadWoken? || s.reader.SeekLock? || s.reader.SeekWoken?
    ensures Good(c, s, RunReader(c, s, interrupted, n))
  {
    hide StoreInv, Window, FreeInv, InnerInv, EofInv, Matches, Root, WhyOk;
  }

  lemma HeadOk(c: Config, s: State, interrupted: bool, n: nat)
    requires Inv(c, s) && s.reader.ReadHead?
    ensures Good(c, s, RunReader(c, s, interrupted, n))
  {
    var req := s.reader.req;
    if req.toRead <= 0 {
      assert RunReader(c, s, interrupted, n) == (s.(reader := ReadDone(req)), Silent);
      HeadDone(c, s, s.abort, req.ret);
    } else if s.abort || interrupted {
      assert RunReader(c, s, interrupted, n) == (s.(abort := true, reader := ReadDone(req.(ret := AVERROR_EXIT))), Silent);
      HeadDone(c, s, true, AVERROR_EXIT);
    } else {
      assert RunReader(c, s, interrupted, n) == (s.(reader := ReadFile(req)), Silent);
      HeadGoesOn(c, s);
    }
    hide *;
  }

  lemma HeadDone(c: Config, s: State, abort: bool, ret: int)
    requires Inv(c, s) && s.reader.ReadHead?
    requires if ret == AVERROR_EXIT then abort else ret == s.reader.req.ret && s.reader.req.toRead <= 0 && abort == s.abort
    ensures Good(c, s, (s.(abort := abort, reader := ReadDone(s.reader.req.(ret := ret))), Silent))
  {
    AbortOk(c, s);
    hide StoreInv, Window, FreeInv, InnerInv, EofInv, Matches, Root, WhyOk, WillSleep;
  }

  lemma HeadGoesOn(c: Config, s: State)
    requires Inv(c, s) && s.reader.ReadHead? && s.reader.req.toRead > 0 && !s.abort
    ensures Good(c, s, (s.(reader := ReadFile(s.reader.req)), Silent))
  {
    hide StoreInv, Window, FreeInv, InnerInv, EofInv, Matches, Root, WhyOk;
  }

  lemma DoneOk(c: Config, s: State, interrupted: bool, n: nat)
    requires Inv(c, s) && s.reader.ReadDone?
    ensures Good(c, s, RunReader(c, s, interrupted, n))
  {
    var req := s.reader.req;
    var wake := req.ret != req.size || !FarEnough(c, s);
    var f := if wake then WakeFiller(s.filler) else s.filler;
    assert RunReader(c, s, interrupted, n) ==
      (s.(reader := Idle, locked := false, filler := f), DidRead(req.size, req.ret, req.out, req.why));
    DoneReturns(c, s, f);
    hide *;
  }

  lemma DoneReturns(c: Config, s: State, f: Filler)
    requires Inv(c, s) && s.reader.ReadDone? && (f == s.filler || (s.filler.Asleep? && f.Top?))
    ensures var req := s.reader.req;
      Good(c, s, (s.(reader := Idle, locked := false, filler := f), DidRead(req.size, req.ret, req.out, req.why)))
  {
    hide StoreInv, Window, FreeInv, InnerInv, EofInv, Matches, Root, WhyOk, WillSleep, FarEnough;
    if f != s.filler {
      WakeOk(c, s, f);
    }
  }

  lemma SeekHeadOk(c: Config, s: State, interrupted: bool, n: nat)
    requires Inv(c, s) && s.reader.SeekHead?
    ensures Good(c, s, RunReader(c, s, interrupted, n))
  {
    if s.abort || interrupted {
      assert RunReader(c, s, interrupted, n) ==
        (s.(abort := true, reader := Idle, locked := false), DidSeek(s.seek.target, AVERROR_EXIT));
      SeekReturns(c, s, true, AVERROR_EXIT);
    } else if s.seek.completed {
      assert RunReader(c, s, interrupted, n) == (s.(reader := Idle, locked := false), DidSeek(s.seek.target, s.seek.ret));
      SeekReturns(c, s, s.abort, s.seek.ret);
    } else {
      assert RunReader(c, s, interrupted, n) == (Sleep(s, SeekSleep(s.reader.start)), Silent);
      SeekWaits(c, s);
    }
    hide *;
  }

  lemma SeekReturns(c: Config, s: State, abort: bool, ret: int)
    requires Inv(c, s) && s.reader.SeekHead?
    requires (abort && ret == AVERROR_EXIT) || (abort == s.abort && s.seek.completed && ret == s.seek.ret)
    ensures Good(c, s, (s.(abort := abort, reader := Idle, locked := false), DidSeek(s.seek.target, ret)))
  {
    AbortOk(c, s);
    hide StoreInv, Window, FreeInv, InnerInv, EofInv, Matches, Root, WhyOk, WillSleep;
  }

  lemma SeekWaits(c: Config, s: State)
    requires Inv(c, s) && s.reader.SeekHead? && !s.abort && !s.seek.completed
    ensures Good(c, s, (Sleep(s, SeekSleep(s.reader.start)), Silent))
  {
    WakeOk(c, s, WakeFiller(s.filler));
    hide StoreInv, Window, FreeInv, InnerInv, EofInv, Matches, Root, WhyOk;
  }

  /** Nothing is cached at the reader's position. */
  lemma EofOk(c: Config, s: State, interrupted: bool, n: nat)
    requires Inv(c, s) && s.reader.ReadEof?
    ensures Good(c, s, RunReader(c, s, interrupted, n))
  {
    var req := s.reader.req;
    if s.eof {
      var ret := if req.ret > 0 then req.ret else if s.ioError != 0 then s.ioError else AVERROR_EOF;
      assert RunReader(c, s, interrupted, n) == (s.(reader := ReadDone(req.(ret := ret, why := Some(EndCause(s))))), Silent);
      EndOk(c, s);
    } else {
      assert RunReader(c, s, interrupted, n) == (Sleep(s, ReadSleep(req)), Silent);
      ReadWaits(c, s);
    }
    hide *;
  }

  lemma ReadWaits(c: Config, s: State)
    requires Inv(c, s) && s.reader.ReadEof? && !s.eof
    ensures Good(c, s, (Sleep(s, ReadSleep(s.reader.req)), Silent))
  {
    WakeOk(c, s, WakeFiller(s.filler));
    hide StoreInv, Window, FreeInv, InnerInv, EofInv, Matches, Root, WhyOk;
  }

  lemma SamePlace(t: Tree, a: nat, b: nat)
    requires Window(t, a, b) && Covering(t, a).None? && Covering(t, b).None?
    ensures a == b
  {
    hide Covering;
  }

  lemma EndOk(c: Config, s: State)
    requires Inv(c, s) && s.reader.ReadEof? && s.eof
    ensures var req := s.reader.req;
      var ret := if req.ret > 0 then req.ret else if s.ioError != 0 then s.ioError else AVERROR_EOF;
      Good(c, s, (s.(reader := ReadDone(req.(ret := ret, why := Some(EndCause(s))))), Silent))
  {
    var req := s.reader.req;
    var ret := if req.ret > 0 then req.ret else if s.ioError != 0 then s.ioError else AVERROR_EOF;
    EndReason(c, s, ret);
    assert req.ret == |req.out| by {
      hide StoreInv, Window, FreeInv, InnerInv, EofInv, Matches, Root, WhyOk, Covering;
    }
    EndReturns(c, s, ret);
    hide *;
  }

  lemma EndReturns(c: Config, s: State, ret: int)
    requires Inv(c, s) && s.reader.ReadEof? && s.eof
    requires if s.reader.req.ret > 0 then ret == s.reader.req.ret else ret < 0
    requires WhyOk(c, EndCause(s), s.readLogical, s.logicalSize, s.resized, s.abort, ret)
    ensures Good(c, s, (s.(reader := ReadDone(s.reader.req.(ret := ret, why := Some(EndCause(s))))), Silent))
  {
    hide StoreInv, Window, FreeInv, InnerInv, EofInv, Matches, Root, WhyOk, Covering;
  }

  lemma EndReason(c: Config, s: State, ret: int)
    requires Inv(c, s) && s.reader.ReadEof? && s.eof
    requires ret > 0 || ret == if s.ioError != 0 then s.ioError else AVERROR_EOF
    ensures WhyOk(c, EndCause(s), s.readLogical, s.logicalSize, s.resized, s.abort, ret) && s.ioError <= 0
  {
    if s.cause != Interrupted {
      SamePlace(Root(c, s.store), s.readLogical, s.fileLogical);
    }
    hide StoreInv, Window, InnerInv, Matches, Root, Covering, SeekInv, SleepInv;
  }

  // ----- a read from the file -----

  lemma ShapeOk(c: Config, f: Store)
    requires StoreInv(c, f)
    ensures 0 <= f.last <= |f.file|
    ensures TreeOk(c.Src(), f.file, f.last, Root(c, f))
    ensures Ordered(Root(c, f)) && LogicallyDisjoint(Elems(Root(c, f)))
  {
    hide EntryStored, Matches, Elems, Ordered, Balanced, LogicallyDisjoint, PhysicallyDisjoint, TotalSize;
  }

  lemma FileReadOk(c: Config, f: Store, e: Entry, pos: nat, toRead: nat, n: nat)
    requires StoreInv(c, f) && Covering(Root(c, f), pos) == Some(e) && toRead > 0
    ensures var (bytes, _) := FileRead(f, e, pos, toRead, n);
      && 0 < |bytes| <= toRead && Matches(c.Src(), pos, bytes)
      && e in Elems(Root(c, f)) && e.logical <= pos && pos + |bytes| <= e.logical + e.size
  {
    ShapeOk(c, f);
    CoveringSpec(Root(c, f), pos, e);
    assert EntryStored(c.Src(), f.file, f.last, e);
    StoredBounds(c.Src(), f.file, f.last, e);
    var target := e.physical + (pos - e.logical);
    var got := Min(Min(Max(n, 1), Min(toRead, e.size - (pos - e.logical))), |f.file| - target);
    CachedBytes(c.Src(), f.file, f.last, e, pos, got);
    hide Covering, EntryStored, Matches, Root, TreeOk, Coherent, Elems, LogicallyDisjoint;
  }

  /** Moving one end of the window inside an entry. */
  lemma WindowStep(t: Tree, a: nat, b: nat, e: Entry, a': nat)
    requires Ordered(t) && LogicallyDisjoint(Elems(t)) && Window(t, a, b)
    requires e in Elems(t) && e.logical <= a <= a' <= e.logical + e.size
    ensures Window(t, a', b) && Window(t, b, a')
  {
    forall p | a <= p < a'
      ensures Covering(t, p).Some?
    {
      CoveringSpec(t, p, e);
    }
    hide Covering, Ordered, LogicallyDisjoint, Elems;
  }

  lemma FileOk(c: Config, s: State, interrupted: bool, n: nat)
    requires Inv(c, s) && s.reader.ReadFile?
    ensures Good(c, s, RunReader(c, s, interrupted, n))
  {
    var req := s.reader.req;
    var e := Covering(Root(c, s.store), s.readLogical);
    if e.None? {
      assert RunReader(c, s, interrupted, n) == (s.(reader := ReadEof(req)), Silent);
      FileMissed(c, s);
    } else {
      assert req.toRead > 0 by {
        hide StoreInv, Window, FreeInv, InnerInv, EofInv, Matches, Root, WhyOk;
      }
      var (bytes, at) := FileRead(s.store, e.value, s.readLogical, req.toRead, n);
      FileReadOk(c, s.store, e.value, s.readLogical, req.toRead, n);
      ReadMoves(c, s, e.value, bytes, at);
    }
    hide Inv, Good, Taken, FileRead, Covering, Root;
  }

  lemma FileMissed(c: Config, s: State)
    requires Inv(c, s) && s.reader.ReadFile? && Covering(Root(c, s.store), s.readLogical).None?
    ensures Good(c, s, (s.(reader := ReadEof(s.reader.req)), Silent))
  {
    hide StoreInv, Window, FreeInv, InnerInv, EofInv, Matches, Root, WhyOk, Covering;
  }

  lemma ReadMoves(c: Config, s: State, e: Entry, bytes: seq<byte>, at: nat)
    requires Inv(c, s) && s.reader.ReadFile? && 0 < |bytes| <= s.reader.req.toRead
    requires Matches(c.Src(), s.readLogical, bytes)
    requires e in Elems(Root(c, s.store)) && e.logical <= s.readLogical && s.readLogical + |bytes| <= e.logical + e.size
    ensures Good(c, s, (Taken(s, s.reader.req, bytes, at), Silent))
  {
    ShapeOk(c, s.store);
    WindowStep(Root(c, s.store), s.readLogical, s.fileLogical, e, s.readLogical + |bytes|);
    MatchesConcat(c.Src(), s.readLogical - |s.reader.req.out|, s.reader.req.out, bytes);
    if s.reader.req.toRead == |bytes| {
      ReadFinishes(c, s, bytes, at);
    } else {
      ReadGoesOn(c, s, bytes, at);
    }
    hide Good, Window, FreeInv, InnerInv, EofInv, Matches, Root, Elems, TreeOk, Ordered, LogicallyDisjoint, SeekInv, SleepInv, Taken;
  }

  lemma ReadFinishes(c: Config, s: State, bytes: seq<byte>, at: nat)
    requires Inv(c, s) && s.reader.ReadFile? && 0 < |bytes| == s.reader.req.toRead
    requires Matches(c.Src(), s.readLogical - |s.reader.req.out|, s.reader.req.out + bytes)
    requires Window(Root(c, s.store), s.readLogical + |bytes|, s.fileLogical)
    ensures Good(c, s, (Taken(s, s.reader.req, bytes, at), Silent))
  {
    assert StoreInv(c, s.store.(fdPos := at)) && Root(c, s.store.(fdPos := at)) == Root(c, s.store);
    hide StoreInv, Window, FreeInv, InnerInv, EofInv, Matches, Root, WhyOk;
  }

  lemma ReadGoesOn(c: Config, s: State, bytes: seq<byte>, at: nat)
    requires Inv(c, s) && s.reader.ReadFile? && 0 < |bytes| < s.reader.req.toRead
    requires Matches(c.Src(), s.readLogical - |s.reader.req.out|, s.reader.req.out + bytes)
    requires Window(Root(c, s.store), s.readLogical + |bytes|, s.fileLogical)
    ensures Good(c, s, (Taken(s, s.reader.req, bytes, at), Silent))
  {
    WakeOk(c, s, WakeFiller(s.filler));
    assert StoreInv(c, s.store.(fdPos := at)) && Root(c, s.store.(fdPos := at)) == Root(c, s.store);
    hide StoreInv, Window, FreeInv, InnerInv, EofInv, Matches, Root, WhyOk;
  }
}
