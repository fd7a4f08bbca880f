/** Calls and answers of the prefetching cache: every finished call answers the call
    that started it, once, and reasons that are given are true of the environment. */
module PrefetchAnswers {
  import opened Common
  import opened CacheIndex
  import opened CacheStorage
  import opened Source
  import opened PrefetchProtocol
  import opened PrefetchProof
  import opened PrefetchRuns

  predicate IsCall(step: Step) {
    step.CallRead? || step.CallSeek?
  }

  /** What a call asks for. A relative seek starts from the caller's position; a seek
      before the front, or of an unknown kind, can only be refused. */
  datatype Task = Nothing | ToRead(size: nat) | ToSeek(target: nat) | ToTell | ToRefuse

  function Asked(s: State, step: Step): Task {
    match step
    case CallRead(size) => ToRead(size)
    case CallSeek(pos, whence) =>
      (match whence
       case Set => if pos < 0 then ToRefuse else ToSeek(pos)
       case Cur => if s.readLogical + pos < 0 then ToRefuse else ToSeek(s.readLogical + pos)
       case Size => ToTell
       case Other => ToRefuse)
    case _ => Nothing
  }

  predicate Answers(task: Task, ev: Event) {
    match ev
    case Silent => false
    case DidRead(size, _, _, _) => task == ToRead(size)
    case DidSeek(target, ret) => if target >= 0 then task == ToSeek(target) else task == ToRefuse && ret == AVERROR_EINVAL
    case DidSize(_) => task == ToTell
  }

  /** What the running call is about. */
  function Doing(s: State): Task {
    if Reading(s.reader) then ToRead(s.reader.req.size)
    else if s.reader.SeekLock? then ToSeek(s.reader.target)
    else if Seeking(s.reader) then ToSeek(s.seek.target)
    else Nothing
  }

  /** A call that returns answers what was asked, and until then it is about that. */
  ghost predicate Faithful(task: Task, o: (State, Event)) {
    if o.1 == Silent then Doing(o.0) == task else Answers(task, o.1) && Doing(o.0) == Nothing
  }

  // ----- what the environment did -----

  /** The codes with which opening or reading the inner source failed, whether a seek
      of it did, whether something interrupted, and the size that was last claimed. */
  datatype History = History(faults: set<int>, seekFailed: bool, stopped: bool, size: int)

  predicate Opens(s: State, step: Step) {
    step.FillerRun? && (s.filler.SeekInner? || s.filler.Fetch?) && s.asyncOpen
  }

  function HistoryBy(s: State, step: Step, h: History): History {
    var fails := step.FillerRun? && step.reply.Fail?;
    History(
      if fails && (s.filler.Fetch? || Opens(s, step)) then h.faults + {step.reply.code} else h.faults,
      h.seekFailed || (fails && s.filler.SeekInner? && !s.asyncOpen),
      h.stopped || StopsBy(s, step),
      if Opens(s, step) && step.reply.Deliver? then step.reply.n else h.size)
  }

  /** The close, and an interruption where one is looked for. */
  predicate StopsBy(s: State, step: Step) {
    || step.Close?
    || (step.ReaderRun? && step.interrupted && ((s.reader.ReadHead? && s.reader.req.toRead > 0) || s.reader.SeekHead?))
    || (step.FillerRun? && step.interrupted && s.filler.Top?)
  }

  predicate CauseKnown(cause: Cause, h: History) {
    match cause
    case SeekFailed => h.seekFailed
    case ReadFailed(code) => code in h.faults
    case Interrupted => h.stopped
    case _ => true
  }

  predicate CodeKnown(code: int, h: History) {
    code == 0 || code == AVERROR_EOF || (code == AVERROR_EXIT && h.stopped) || code in h.faults
  }

  predicate RequestKnown(r: Reader, h: History) {
    Reading(r) ==>
      var req := r.req;
      if r.ReadDone? then (req.ret < 0 ==> CodeKnown(req.ret, h)) && (req.why.Some? ==> CauseKnown(req.why.value, h))
      else req.toRead <= req.size && req.ret >= 0 && req.why.None?
  }

  predicate FillerKnown(f: Filler, h: History) {
    && (f.Halted? || f.Stopping? ==> h.stopped)
    && (f.Report? ==> CodeKnown(f.code, h))
  }

  predicate Known(s: State, h: History) {
    && s.abort == h.stopped && s.logicalSize == h.size && s.seek.ret >= 0
    && CauseKnown(s.cause, h) && CodeKnown(s.ioError, h)
    && RequestKnown(s.reader, h) && FillerKnown(s.filler, h)
  }

  /** A read fails at an end, after an interruption, or with a code of the inner source;
      what it gives as the reason of an early end did happen. A seek fails after an
      interruption, and the size is the one that was claimed. */
  predicate Reason(ev: Event, h: History) {
    match ev
    case Silent => true
    case DidRead(_, ret, _, why) => (ret < 0 ==> CodeKnown(ret, h)) && (why.Some? ==> CauseKnown(why.value, h))
    case DidSeek(target, ret) => ret >= 0 || target < 0 || (ret == AVERROR_EXIT && h.stopped)
    case DidSize(ret) => ret == h.size
  }

  ghost predicate Fine(task: Task, h: History, o: (State, Event)) {
    Faithful(task, o) && Known(o.0, h) && Reason(o.1, h)
  }

  // ----- steps -----

  ghost predicate Later(h: History, h': History) {
    h.faults <= h'.faults && (h.seekFailed ==> h'.seekFailed) && (h.stopped ==> h'.stopped)
  }

  lemma LaterKnows(h: History, h': History)
    requires Later(h, h')
    ensures forall code :: CodeKnown(code, h) ==> CodeKnown(code, h')
    ensures forall cause :: CauseKnown(cause, h) ==> CauseKnown(cause, h')
    ensures CodeKnown(0, h') && CodeKnown(AVERROR_EOF, h') && CauseKnown(SizeReached, h') && CauseKnown(EndReached, h')
    ensures h'.stopped ==> CodeKnown(AVERROR_EXIT, h') && CauseKnown(Interrupted, h')
  {
  }

  lemma Grows(s: State, step: Step, h: History)
    ensures Later(h, HistoryBy(s, step, h))
    ensures !step.FillerRun? ==> HistoryBy(s, step, h) == h.(stopped := h.stopped || StopsBy(s, step))
  {
  }

  /** Only opening, moving and reading the inner source, interruptions and the close
      are recorded. */
  lemma HistoryIs(s: State, step: Step, h: History)
    ensures !step.FillerRun? || !(s.filler.SeekInner? || s.filler.Fetch?) ==>
      HistoryBy(s, step, h) == if StopsBy(s, step) then h.(stopped := true) else h
  {
  }

  lemma CallFine(c: Config, s: State, step: Step, h: History)
    requires Known(s, h) && Enabled(s, step) && !step.ReaderRun? && !step.FillerRun?
    ensures IsCall(step) ==> Doing(s) == Nothing
    ensures Fine(if IsCall(step) then Asked(s, step) else Doing(s), HistoryBy(s, step, h), Next(c, s, step))
  {
    hide HistoryBy, Known, Fine, Doing, RunReader, RunFiller, SeekTo, Asked;
    HistoryIs(s, step, h);
    match step {
      case CallSeek(pos, whence) => SeekFine(s, pos, whence, h);
      case CallRead(size) => ReadStarts(s, size, h);
      case ReaderSpurious => ReaderWakes(s, h);
      case Close =>
        CloseParts(c, s);
        Closes(s, Next(c, s, step).0, h);
        hide Next;
      case FillerSpurious => FillerWakes(s, h);
    }
  }

  lemma ReadStarts(s: State, size: nat, h: History)
    requires Known(s, h) && s.reader.Idle?
    ensures Doing(s) == Nothing && Asked(s, CallRead(size)) == ToRead(size)
    ensures Fine(ToRead(size), h, (s.(reader := ReadLock(Request(size, size, [], 0, None))), Silent))
  {
    hide CauseKnown, CodeKnown;
  }

  lemma ReaderWakes(s: State, h: History)
    requires Known(s, h) && (s.reader.ReadSleep? || s.reader.SeekSleep?)
    ensures Fine(Doing(s), h, (s.(reader := WakeReader(s.reader)), Silent))
  {
    hide CauseKnown, CodeKnown;
  }

  lemma FillerWakes(s: State, h: History)
    requires Known(s, h)
    ensures Fine(Doing(s), h, (s.(filler := Top, missed := false), Silent))
  {
    hide CauseKnown, CodeKnown;
  }

  lemma Closes(s: State, s': State, h: History)
    requires Known(s, h) && s.reader.Idle? && (s'.reader.Closed? || s'.reader.CloseSleep?)
    requires s' == s.(abort := true, filler := WakeFiller(s.filler), reader := s'.reader, missed := s'.missed)
    ensures Fine(Doing(s), h.(stopped := true), (s', Silent))
  {
    LaterKnows(h, h.(stopped := true));
    hide CauseKnown, CodeKnown;
  }

  lemma CloseParts(c: Config, s: State)
    ensures var (s', ev) := Next(c, s, Close);
      && ev == Silent && s' == s.(abort := true, filler := WakeFiller(s.filler), reader := s'.reader, missed := s'.missed)
      && (s'.reader.Closed? || s'.reader.CloseSleep?)
  {
    hide WakeFiller, WillSleep, FarEnough;
  }

  lemma SeekFine(s: State, pos: int, whence: Whence, h: History)
    requires Known(s, h) && s.reader.Idle?
    ensures Doing(s) == Nothing && Fine(Asked(s, CallSeek(pos, whence)), h, SeekTo(s, pos, whence))
  {
    hide CauseKnown, CodeKnown;
    match whence {
      case Size => assert SeekTo(s, pos, whence) == (s, DidSize(s.logicalSize));
      case Other => assert SeekTo(s, pos, whence) == (s, DidSeek(AVERROR_EINVAL, AVERROR_EINVAL));
      case Set => SeekParts(s, pos, whence, pos);
      case Cur => SeekParts(s, pos, whence, s.readLogical + pos);
    }
    hide SeekTo;
  }

  lemma SeekParts(s: State, pos: int, whence: Whence, target: int)
    requires (whence.Set? && target == pos) || (whence.Cur? && target == s.readLogical + pos)
    ensures target < 0 ==> SeekTo(s, pos, whence) == (s, DidSeek(AVERROR_EINVAL, AVERROR_EINVAL))
    ensures target >= 0 ==> SeekTo(s, pos, whence) == (s.(reader := SeekLock(target)), Silent)
  {
  }

  lemma ReaderFine(c: Config, s: State, interrupted: bool, n: nat, h: History)
    requires Known(s, h)
    ensures Fine(Doing(s), HistoryBy(s, ReaderRun(interrupted, n), h), RunReader(c, s, interrupted, n))
  {
    hide Known, Fine, RunReader, HistoryBy, Doing;
    match s.reader {
      case ReadHead(_) => HeadFine(c, s, interrupted, n, h);
      case ReadFile(_) => FileFine(c, s, interrupted, n, h);
      case ReadEof(_) => EofFine(c, s, interrupted, n, h);
      case ReadDone(_) => DoneFine(c, s, interrupted, n, h);
      case SeekHead(_) => SeekHeadFine(c, s, interrupted, n, h);
      case _ => LockFine(c, s, interrupted, n, h);
    }
  }

  lemma HeadFine(c: Config, s: State, interrupted: bool, n: nat, h: History)
    requires Known(s, h) && s.reader.ReadHead?
    ensures Fine(Doing(s), HistoryBy(s, ReaderRun(interrupted, n), h), RunReader(c, s, interrupted, n))
  {
    var req, h' := s.reader.req, HistoryBy(s, ReaderRun(interrupted, n), h);
    Grows(s, ReaderRun(interrupted, n), h);
    LaterKnows(h, h');
    HeadIs(c, s, interrupted, n);
    hide HistoryBy, RunReader, CauseKnown, CodeKnown, Fine;
    if req.toRead <= 0 {
      HeadGoes(s, ReadDone(req), s.abort, h, h');
    } else if s.abort || interrupted {
      HeadGoes(s, ReadDone(req.(ret := AVERROR_EXIT)), true, h, h');
    } else {
      HeadGoes(s, ReadFile(req), s.abort, h, h');
    }
  }

  lemma HeadGoes(s: State, r: Reader, abort: bool, h: History, h': History)
    requires Known(s, h) && Later(h, h') && h'.stopped == abort && h'.size == h.size && s.reader.ReadHead?
    requires Reading(r) && r.req.size == s.reader.req.size && RequestKnown(r, h')
    ensures Fine(Doing(s), h', (s.(abort := abort, reader := r), Silent))
  {
    LaterKnows(h, h');
    hide CauseKnown, CodeKnown, RequestKnown;
  }

  lemma FileFine(c: Config, s: State, interrupted: bool, n: nat, h: History)
    requires Known(s, h) && s.reader.ReadFile?
    ensures Fine(Doing(s), HistoryBy(s, ReaderRun(interrupted, n), h), RunReader(c, s, interrupted, n))
  {
    HistoryIs(s, ReaderRun(interrupted, n), h);
    assert RunReader(c, s, interrupted, n) == (ReadCached(c, s, s.reader.req, n), Silent);
    hide HistoryBy, RunReader, Known, Fine, Doing, FileRead, Covering, Root;
    var req, e := s.reader.req, Covering(Root(c, s.store), s.readLogical);
    if e.None? {
      ReaderGoes(s, s.store, s.readLogical, ReadEof(req), s.locked, s.filler, h);
    } else {
      var (bytes, at) := FileRead(s.store, e.value, s.readLogical, req.toRead, n);
      if 0 < |bytes| <= req.toRead {
        TakenFine(s, bytes, at, h);
        hide Taken;
      } else {
        ReaderGoes(s, s.store.(fdPos := at), s.readLogical, ReadEof(req), s.locked, s.filler, h);
      }
    }
  }

  lemma TakenFine(s: State, bytes: seq<byte>, at: nat, h: History)
    requires Known(s, h) && s.reader.ReadFile? && |bytes| <= s.reader.req.toRead
    ensures Fine(Doing(s), h, (Taken(s, s.reader.req, bytes, at), Silent))
  {
    assert s.reader.req.toRead <= s.reader.req.size && s.reader.req.why.None?;
    hide Known, Fine, Doing;
    TakenIs(s, s.reader.req, bytes, at);
    hide Taken;
    var s' := Taken(s, s.reader.req, bytes, at);
    ReaderGoes(s, s'.store, s'.readLogical, s'.reader, s'.locked, s'.filler, h);
  }

  lemma TakenIs(s: State, req: Request, bytes: seq<byte>, at: nat)
    requires |bytes| <= req.toRead
    ensures var s' := Taken(s, req, bytes, at);
      && s' == s.(store := s'.store, readLogical := s'.readLogical, reader := s'.reader, locked := s'.locked, filler := s'.filler)
      && (s'.filler == s.filler || s'.filler == WakeFiller(s.filler))
      && (s'.reader.ReadDone? || s'.reader.ReadSleep?) && s'.reader.req.size == req.size && s'.reader.req.why == req.why
      && s'.reader.req.toRead == req.toRead - |bytes| && s'.reader.req.ret == req.size - s'.reader.req.toRead
  {
    hide WakeFiller;
  }

  lemma ReaderGoes(s: State, store: Store, pos: nat, r: Reader, locked: bool, filler: Filler, h: History)
    requires Known(s, h) && s.reader.ReadFile? && (filler == s.filler || filler == WakeFiller(s.filler))
    requires r == ReadEof(s.reader.req) || r.ReadDone? || r.ReadSleep?
    requires r.req.size == s.reader.req.size && r.req.why.None? && 0 <= r.req.toRead <= r.req.size && r.req.ret >= 0
    ensures Fine(Doing(s), h, (s.(store := store, readLogical := pos, reader := r, locked := locked, filler := filler), Silent))
  {
    hide CauseKnown, CodeKnown;
  }

  lemma EofFine(c: Config, s: State, interrupted: bool, n: nat, h: History)
    requires Known(s, h) && s.reader.ReadEof?
    ensures Fine(Doing(s), HistoryBy(s, ReaderRun(interrupted, n), h), RunReader(c, s, interrupted, n))
  {
    Grows(s, ReaderRun(interrupted, n), h);
    LaterKnows(h, HistoryBy(s, ReaderRun(interrupted, n), h));
    EofIs(c, s, interrupted, n);
    hide HistoryBy, RunReader, CauseKnown, CodeKnown, ReadCached, FarEnough, WakeFiller;
  }

  lemma DoneFine(c: Config, s: State, interrupted: bool, n: nat, h: History)
    requires Known(s, h) && s.reader.ReadDone?
    ensures Fine(Doing(s), HistoryBy(s, ReaderRun(interrupted, n), h), RunReader(c, s, interrupted, n))
  {
    Grows(s, ReaderRun(interrupted, n), h);
    LaterKnows(h, HistoryBy(s, ReaderRun(interrupted, n), h));
    DoneParts(c, s, interrupted, n);
    hide HistoryBy, RunReader, CauseKnown, CodeKnown, ReadCached, FarEnough, WakeFiller;
  }

  lemma SeekHeadFine(c: Config, s: State, interrupted: bool, n: nat, h: History)
    requires Known(s, h) && s.reader.SeekHead?
    ensures Fine(Doing(s), HistoryBy(s, ReaderRun(interrupted, n), h), RunReader(c, s, interrupted, n))
  {
    Grows(s, ReaderRun(interrupted, n), h);
    LaterKnows(h, HistoryBy(s, ReaderRun(interrupted, n), h));
    SeekHeadIs(c, s, interrupted, n);
    hide HistoryBy, RunReader, CauseKnown, CodeKnown, ReadCached, FarEnough, WakeFiller;
  }

  lemma LockFine(c: Config, s: State, interrupted: bool, n: nat, h: History)
    requires Known(s, h) && !s.reader.ReadHead? && !s.reader.ReadFile? && !s.reader.ReadEof? && !s.reader.ReadDone? && !s.reader.SeekHead?
    ensures Fine(Doing(s), HistoryBy(s, ReaderRun(interrupted, n), h), RunReader(c, s, interrupted, n))
  {
    HistoryIs(s, ReaderRun(interrupted, n), h);
    LockIs(c, s, interrupted, n);
    hide HistoryBy, RunReader, CauseKnown, CodeKnown;
  }

  lemma HeadIs(c: Config, s: State, interrupted: bool, n: nat)
    requires s.reader.ReadHead?
    ensures var req := s.reader.req;
      && (req.toRead <= 0 ==> RunReader(c, s, interrupted, n) == (s.(reader := ReadDone(req)), Silent))
      && (req.toRead > 0 && (s.abort || interrupted) ==>
            RunReader(c, s, interrupted, n) == (s.(abort := true, reader := ReadDone(req.(ret := AVERROR_EXIT))), Silent))
      && (req.toRead > 0 && !s.abort && !interrupted ==> RunReader(c, s, interrupted, n) == (s.(reader := ReadFile(req)), Silent))
  {
  }

  lemma EofIs(c: Config, s: State, interrupted: bool, n: nat)
    requires s.reader.ReadEof?
    ensures var req := s.reader.req;
      var ret := if req.ret > 0 then req.ret else if s.ioError != 0 then s.ioError else AVERROR_EOF;
      && (s.eof ==> RunReader(c, s, interrupted, n) == (s.(reader := ReadDone(req.(ret := ret, why := Some(EndCause(s))))), Silent))
      && (!s.eof ==> RunReader(c, s, interrupted, n) == (Sleep(s, ReadSleep(req)), Silent))
  {
  }

  lemma DoneParts(c: Config, s: State, interrupted: bool, n: nat)
    requires s.reader.ReadDone?
    ensures var req, (s', ev) := s.reader.req, RunReader(c, s, interrupted, n);
      && ev == DidRead(req.size, req.ret, req.out, req.why) && s' == s.(reader := Idle, locked := false, filler := s'.filler)
      && (s'.filler == s.filler || s'.filler == WakeFiller(s.filler))
  {
    hide FarEnough, WakeFiller;
  }

  lemma SeekHeadIs(c: Config, s: State, interrupted: bool, n: nat)
    requires s.reader.SeekHead?
    ensures var stop := s.abort || interrupted;
      && (stop ==> RunReader(c, s, interrupted, n) ==
                     (s.(abort := true, reader := Idle, locked := false), DidSeek(s.seek.target, AVERROR_EXIT)))
      && (!stop && s.seek.completed ==>
            RunReader(c, s, interrupted, n) == (s.(reader := Idle, locked := false), DidSeek(s.seek.target, s.seek.ret)))
      && (!stop && !s.seek.completed ==> RunReader(c, s, interrupted, n) == (Sleep(s, SeekSleep(s.reader.start)), Silent))
  {
  }

  /** Apart from that, the reader only takes the mutex. */
  lemma LockIs(c: Config, s: State, interrupted: bool, n: nat)
    requires !s.reader.ReadHead? && !s.reader.ReadFile? && !s.reader.ReadEof? && !s.reader.ReadDone? && !s.reader.SeekHead?
    ensures var r := s.reader;
      && (s.locked || !(r.ReadLock? || r.ReadWoken? || r.SeekLock? || r.SeekWoken?) ==> RunReader(c, s, interrupted, n) == (s, Silent))
      && (!s.locked && (r.ReadLock? || r.ReadWoken?) ==>
            RunReader(c, s, interrupted, n) == (s.(reader := ReadHead(r.req), locked := true), Silent))
      && (!s.locked && r.SeekWoken? ==> RunReader(c, s, interrupted, n) == (s.(reader := SeekHead(r.start), locked := true), Silent))
      && (!s.locked && r.SeekLock? ==>
            RunReader(c, s, interrupted, n) ==
              (s.(seek := s.seek.(request := true, target := r.target, completed := false), reader := SeekHead(s.readLogical),
                  locked := true), Silent))
  {
    hide ReadCached, FarEnough, Sleep;
  }

  // ----- the filler -----

  /** The filler works on, and nothing that the caller depends on changes but perhaps
      the reason of an end. */
  lemma WorkFine(s: State, s': State, h: History, h': History)
    requires Known(s, h) && Later(h, h') && h'.size == s'.logicalSize && s.abort == s'.abort == h'.stopped
    requires s'.reader == s.reader && s'.seek == s.seek && s'.ioError == s.ioError
    requires (s'.cause == s.cause || CauseKnown(s'.cause, h')) && FillerKnown(s'.filler, h')
    ensures Fine(Doing(s), h', (s', Silent))
  {
    LaterKnows(h, h');
    hide CauseKnown, CodeKnown, FillerKnown;
  }

  lemma FillerFine(c: Config, s: State, step: Step, h: History)
    requires Known(s, h) && step.FillerRun?
    ensures Fine(Doing(s), HistoryBy(s, step, h), (RunFiller(c, s, step.interrupted, step.reply, step.lseek, step.write), Silent))
  {
    hide Known, Fine, HistoryBy, Doing, FillerSkip, FillerFetch, FillerOpen, FillerSeek, FillerAdd, FillerHandover, FarEnough, WakeReader;
    match s.filler {
      case Skip => SkipFine(c, s, step, h);
      case SeekInner(toCopy) =>
        if s.asyncOpen { OpenFine(s, step, h); } else { SeekInnerFine(s, step, h, toCopy); }
      case Fetch(toCopy) =>
        if s.asyncOpen { OpenFine(s, step, h); } else { FetchFine(c, s, step, h, toCopy); }
      case Add(buf) => AddFine(c, s, step, h, buf);
      case Handover => HandoverFine(s, step, h);
      case GoSleep => WakeFine(c, s, step, h);
      case Notify => WakeFine(c, s, step, h);
      case Exiting => WakeFine(c, s, step, h);
      case Top => StopFine(c, s, step, h);
      case Halted => StopFine(c, s, step, h);
      case Stopping => StopFine(c, s, step, h);
      case _ => ControlFine(c, s, step, h);
    }
  }

  lemma SkipFine(c: Config, s: State, step: Step, h: History)
    requires Known(s, h) && step.FillerRun? && s.filler.Skip?
    ensures Fine(Doing(s), HistoryBy(s, step, h), (FillerSkip(c, s), Silent))
  {
    HistoryIs(s, step, h);
    hide HistoryBy, Known, Fine, Doing, SkipTo, SkipRoom, SkipBy, Root;
    var t := Root(c, s.store);
    var pos, room := SkipTo(t, s.fileLogical), SkipRoom(t, s.fileLogical);
    if pos < 0 || room < 0 {
      Skipped(s, s.fileLogical, s.eof, s.cause, Top, h);
    } else {
      SkipByFine(s, pos, room, h);
    }
  }

  lemma SkipByFine(s: State, pos: nat, room: nat, h: History)
    requires Known(s, h)
    ensures Fine(Doing(s), h, (SkipBy(s, pos, room), Silent))
  {
    hide Known, Fine, Doing;
    var atEnd := s.fileLogicalEnd > 0 && pos == s.fileLogicalEnd;
    if room > 0 && (atEnd || pos >= s.logicalSize) {
      Skipped(s, pos, true, if atEnd then EndReached else SizeReached, Top, h);
    } else {
      Skipped(s, pos, s.eof, s.cause, if room == 0 then Top else if pos != s.fileInner then SeekInner(room) else Fetch(room), h);
    }
  }

  lemma Skipped(s: State, pos: nat, eof: bool, cause: Cause, filler: Filler, h: History)
    requires Known(s, h) && (filler.Top? || filler.SeekInner? || filler.Fetch?)
    requires cause == s.cause || cause == EndReached || cause == SizeReached
    ensures Fine(Doing(s), h, (s.(fileLogical := pos, eof := eof, cause := cause, filler := filler), Silent))
  {
    LaterKnows(h, h);
    hide CauseKnown, CodeKnown;
  }

  lemma OpenFine(s: State, step: Step, h: History)
    requires Known(s, h) && step.FillerRun? && (s.filler.SeekInner? || s.filler.Fetch?) && s.asyncOpen
    ensures Fine(Doing(s), HistoryBy(s, step, h), (FillerOpen(s, step.reply), Silent))
  {
    var h' := HistoryBy(s, step, h);
    Grows(s, step, h);
    match step.reply {
      case Fail(code) =>
        assert FillerOpen(s, step.reply) == s.(eof := true, cause := ReadFailed(code), filler := Report(code));
        assert h' == h.(faults := h.faults + {code});
      case Deliver(n) => assert h' == h.(size := n);
    }
    hide HistoryBy;
    WorkFine(s, FillerOpen(s, step.reply), h, h');
  }

  lemma SeekInnerFine(s: State, step: Step, h: History, toCopy: nat)
    requires Known(s, h) && step.FillerRun? && s.filler.SeekInner? && !s.asyncOpen
    ensures Fine(Doing(s), HistoryBy(s, step, h), (FillerSeek(s, toCopy, step.reply), Silent))
  {
    var s', h' := FillerSeek(s, toCopy, step.reply), HistoryBy(s, step, h);
    Grows(s, step, h);
    assert h' == h.(seekFailed := h.seekFailed || step.reply.Fail?);
    assert s' == s.(innerPos := s'.innerPos, fileInner := s'.fileInner, eof := s'.eof, cause := s'.cause, filler := s'.filler, quit := s'.quit);
    assert FillerKnown(s'.filler, h') && s'.cause == if step.reply.Fail? then SeekFailed else s.cause;
    hide FillerSeek, HistoryBy;
    WorkFine(s, s', h, h');
  }

  lemma FetchFine(c: Config, s: State, step: Step, h: History, toCopy: nat)
    requires Known(s, h) && step.FillerRun? && s.filler.Fetch? && !s.asyncOpen
    ensures Fine(Doing(s), HistoryBy(s, step, h), (FillerFetch(c, s, toCopy, step.reply), Silent))
  {
    if step.reply.Fail? {
      var code := step.reply.code;
      assert HistoryBy(s, step, h) == h.(faults := h.faults + {code});
      assert FillerFetch(c, s, toCopy, step.reply) == s.(eof := true, cause := ReadFailed(code), filler := Report(code));
      FetchFails(s, code, h);
    } else {
      HistoryIs(s, step, h);
      FetchWorks(c, s, toCopy, step.reply.n, h);
    }
    hide FillerFetch, HistoryBy, Known, Fine, Doing;
  }

  lemma FetchFails(s: State, code: int, h: History)
    requires Known(s, h)
    ensures Fine(Doing(s), h.(faults := h.faults + {code}), (s.(eof := true, cause := ReadFailed(code), filler := Report(code)), Silent))
  {
    LaterKnows(h, h.(faults := h.faults + {code}));
    assert CodeKnown(code, h.(faults := h.faults + {code})) && CauseKnown(ReadFailed(code), h.(faults := h.faults + {code}));
    hide CodeKnown, CauseKnown;
  }

  lemma FetchWorks(c: Config, s: State, toCopy: nat, n: nat, h: History)
    requires Known(s, h)
    ensures Fine(Doing(s), h, (FillerFetch(c, s, toCopy, Deliver(n)), Silent))
  {
    hide Known, Fine, Doing;
    if s.innerPos >= |c.Src()| {
      if n == 0 {
        FetchEnds(s, s.fileLogical, 0, h);
      } else {
        FetchEnds(s, s.fileLogicalEnd, AVERROR_EOF, h);
      }
    } else {
      var len := Min(Min(Max(n, 1), toCopy), |c.Src()| - s.innerPos);
      if len <= 0 {
        FetchMoves(s, s.innerPos, s.fileInner, Top, h);
      } else {
        var buf := c.Src()[s.innerPos..s.innerPos + len];
        FetchMoves(s, s.innerPos + |buf|, s.fileInner + |buf|, Add(buf), h);
      }
    }
  }

  lemma FetchEnds(s: State, end: nat, code: int, h: History)
    requires Known(s, h) && (code == 0 || code == AVERROR_EOF)
    ensures Fine(Doing(s), h, (s.(fileLogicalEnd := end, eof := true, cause := EndReached, filler := Report(code)), Silent))
  {
    LaterKnows(h, h);
    hide CodeKnown, CauseKnown;
  }

  lemma FetchMoves(s: State, innerPos: nat, inner: int, filler: Filler, h: History)
    requires Known(s, h) && (filler.Top? || filler.Add?)
    ensures Fine(Doing(s), h, (s.(innerPos := innerPos, fileInner := inner, filler := filler), Silent))
  {
    hide CodeKnown, CauseKnown;
  }

  lemma AddFine(c: Config, s: State, step: Step, h: History, buf: seq<byte>)
    requires Known(s, h) && step.FillerRun? && s.filler.Add?
    ensures Fine(Doing(s), HistoryBy(s, step, h), (if s.locked then s else FillerAdd(c, s, buf, step.lseek, step.write), Silent))
  {
    HistoryIs(s, step, h);
    hide HistoryBy, Known, Fine, Doing, FillerAdd;
    Stored(s, s.store, s.eof, s.fileLogical, s.filler, s.cacheClosed, h);
    AddNow(c, s, buf, step.lseek, step.write, h);
  }

  lemma AddNow(c: Config, s: State, buf: seq<byte>, lseek: FileReply, write: FileReply, h: History)
    requires Known(s, h) && s.filler.Add?
    ensures Fine(Doing(s), h, (FillerAdd(c, s, buf, lseek, write), Silent))
  {
    hide Known, Fine, Doing, Flushed, Grown, Clash, Root;
    var f := s.store;
    if lseek.Breaks? || f.last < 0 {
      Stored(s, f.(retries := f.retries + 1), s.eof, s.fileLogical, Top, s.cacheClosed, h);
    } else if f.last + |buf| >= c.maxCapacity {
      if c.shared || c.maxCapacity < |buf| {
        Stored(s, f, s.eof, s.fileLogical, s.filler, true, h);
      } else {
        Stored(s, Flushed(c, f), false, s.readLogical, Top, s.cacheClosed, h);
      }
    } else if write.Breaks? {
      Stored(s, f.(fdPos := f.last, cachePhysical := f.last, retries := f.retries + 1), s.eof, s.fileLogical, Top, s.cacheClosed, h);
    } else {
      var ret := Min(write.n, |buf|);
      if Clash(Root(c, f), s.fileLogical, f.last, ret) || ret == 0 {
        Stored(s, Grown(c, f, s.fileLogical, buf, ret), s.eof, s.fileLogical, Top, s.cacheClosed, h);
      } else {
        Stored(s, Grown(c, f, s.fileLogical, buf, ret), s.eof, s.fileLogical + ret, Notify, s.cacheClosed, h);
      }
    }
  }

  lemma Stored(s: State, store: Store, eof: bool, pos: nat, filler: Filler, closed: bool, h: History)
    requires Known(s, h) && (filler.Top? || filler.Notify? || filler == s.filler)
    ensures Fine(Doing(s), h, (s.(store := store, eof := eof, fileLogical := pos, filler := filler, cacheClosed := closed), Silent))
  {
    hide CodeKnown, CauseKnown;
  }

  lemma WakeFine(c: Config, s: State, step: Step, h: History)
    requires Known(s, h) && step.FillerRun? && (s.filler.GoSleep? || s.filler.Notify? || s.filler.Exiting?)
    ensures Fine(Doing(s), HistoryBy(s, step, h), (RunFiller(c, s, step.interrupted, step.reply, step.lseek, step.write), Silent))
  {
    HistoryIs(s, step, h);
    hide HistoryBy, CauseKnown, CodeKnown;
  }

  lemma HandoverFine(s: State, step: Step, h: History)
    requires Known(s, h) && step.FillerRun? && s.filler.Handover?
    ensures Fine(Doing(s), HistoryBy(s, step, h), (if s.locked then s else FillerHandover(s), Silent))
  {
    HistoryIs(s, step, h);
    hide HistoryBy, CauseKnown, CodeKnown;
    assert CodeKnown(0, h) by {
      LaterKnows(h, h);
    }
  }

  lemma StopFine(c: Config, s: State, step: Step, h: History)
    requires Known(s, h) && step.FillerRun? && (s.filler.Top? || s.filler.Halted? || s.filler.Stopping?)
    ensures Fine(Doing(s), HistoryBy(s, step, h), (RunFiller(c, s, step.interrupted, step.reply, step.lseek, step.write), Silent))
  {
    assert s.abort == h.stopped;
    hide HistoryBy, RunFiller, Known, Fine, Doing;
    HistoryIs(s, step, h);
    StopIs(c, s, step);
    if s.filler.Top? && (s.abort || step.interrupted) {
      Halts(s, h);
    } else {
      Stops(s, h);
    }
  }

  lemma Halts(s: State, h: History)
    requires Known(s, h)
    ensures Fine(Doing(s), h.(stopped := true), (s.(abort := true, filler := Halted), Silent))
  {
    LaterKnows(h, h.(stopped := true));
    hide CauseKnown, CodeKnown;
  }

  lemma Stops(s: State, h: History)
    requires Known(s, h)
    ensures Fine(Doing(s), h, (s.(filler := Poll), Silent))
    ensures s.filler.Halted? ==> Fine(Doing(s), h, (s.(eof := true, cause := Interrupted, filler := Stopping), Silent))
    ensures s.filler.Stopping? ==> Fine(Doing(s), h, (s.(ioError := AVERROR_EXIT, filler := Exiting), Silent))
  {
    LaterKnows(h, h);
    hide CauseKnown, CodeKnown;
  }

  lemma StopIs(c: Config, s: State, step: Step)
    requires step.FillerRun? && (s.filler.Top? || s.filler.Halted? || s.filler.Stopping?)
    ensures var s' := RunFiller(c, s, step.interrupted, step.reply, step.lseek, step.write);
      && (s.filler.Top? && (s.abort || step.interrupted) ==> s' == s.(abort := true, filler := Halted))
      && (s.filler.Top? && !s.abort && !step.interrupted ==> s' == s.(filler := Poll))
      && (s.filler.Halted? ==> s' == s.(eof := true, cause := Interrupted, filler := Stopping))
      && (s.filler.Stopping? ==> s' == s.(ioError := AVERROR_EXIT, filler := Exiting))
  {
  }

  lemma ControlFine(c: Config, s: State, step: Step, h: History)
    requires Known(s, h) && step.FillerRun?
    requires s.filler.Poll? || s.filler.Check? || s.filler.Asleep? || s.filler.Report? || s.filler.Exited?
    ensures Fine(Doing(s), HistoryBy(s, step, h), (RunFiller(c, s, step.interrupted, step.reply, step.lseek, step.write), Silent))
  {
    HistoryIs(s, step, h);
    LaterKnows(h, h);
    hide HistoryBy, FarEnough, CauseKnown, CodeKnown;
  }

  lemma StepFine(c: Config, s: State, step: Step, h: History)
    requires Known(s, h) && Enabled(s, step)
    ensures IsCall(step) ==> Doing(s) == Nothing
    ensures Fine(if IsCall(step) then Asked(s, step) else Doing(s), HistoryBy(s, step, h), Next(c, s, step))
  {
    hide Known, Fine, HistoryBy, Doing, RunReader, RunFiller;
    match step {
      case ReaderRun(interrupted, n) => ReaderFine(c, s, interrupted, n, h);
      case FillerRun(_, _, _, _) => FillerFine(c, s, step, h);
      case _ =>
        hide Next, Enabled;
        CallFine(c, s, step, h);
    }
  }

  // ----- runs -----

  /** The last call among the first `k` steps. */
  function LastCall(steps: seq<Step>, k: nat): Option<nat>
    requires k <= |steps|
  {
    if k == 0 then None else if IsCall(steps[k - 1]) then Some(k - 1) else LastCall(steps, k - 1)
  }

  ghost predicate Quiet(events: seq<Event>, a: nat, b: nat) {
    forall j :: a <= j < b && j < |events| ==> events[j] == Silent
  }

  /** The call at `i` still runs in state `k`, or was answered by the event at `a`. */
  ghost predicate Runs(states: seq<State>, steps: seq<Step>, events: seq<Event>, i: nat, k: nat)
    requires i < k <= |steps| == |events| && |states| == |steps| + 1
  {
    IsCall(steps[i]) && Doing(states[k]) == Asked(states[i], steps[i]) && Quiet(events, i, k)
  }

  ghost predicate Answered(states: seq<State>, steps: seq<Step>, events: seq<Event>, i: nat, a: nat, k: nat)
    requires i <= a < k <= |steps| == |events| && |states| == |steps| + 1
  {
    && IsCall(steps[i]) && Doing(states[k]) == Nothing
    && Answers(Asked(states[i], steps[i]), events[a]) && Quiet(events, i, a) && Quiet(events, a + 1, k)
  }

  ghost predicate Told(states: seq<State>, steps: seq<Step>, events: seq<Event>, k: nat, a: nat)
    requires k <= |steps| == |events| && |states| == |steps| + 1
  {
    match LastCall(steps, k)
    case None => Doing(states[k]) == Nothing && Quiet(events, 0, k)
    case Some(i) => i < k && (Runs(states, steps, events, i, k) || (i <= a < k && Answered(states, steps, events, i, a, k)))
  }

  lemma ToldOn(states: seq<State>, steps: seq<Step>, events: seq<Event>, k: nat, a: nat)
    requires k < |steps| == |events| && |states| == |steps| + 1
    requires Told(states, steps, events, k, a) && (IsCall(steps[k]) ==> Doing(states[k]) == Nothing)
    requires Faithful(if IsCall(steps[k]) then Asked(states[k], steps[k]) else Doing(states[k]), (states[k + 1], events[k]))
    ensures Told(states, steps, events, k + 1, if events[k] != Silent then k else a)
  {
    hide Doing, Asked;
  }

  function HistoryOf(states: seq<State>, steps: seq<Step>, k: nat): History
    requires k <= |steps| && |states| == |steps| + 1
  {
    if k == 0 then History({}, false, false, states[0].logicalSize)
    else HistoryBy(states[k - 1], steps[k - 1], HistoryOf(states, steps, k - 1))
  }

  lemma {:induction false} RunKnown(c: Config, states: seq<State>, steps: seq<Step>, events: seq<Event>, k: nat)
    requires IsRun(c, states, steps, events) && k < |states|
    ensures Known(states[k], HistoryOf(states, steps, k))
    decreases k
  {
    hide Next, Enabled, Desync, StoreInv, HistoryBy, Asked, Doing;
    if k == 0 {
      var store, size, late :| StoreInv(c, store) && states[0] == Init(store, size, late);
      assert states[0].logicalSize == size;
    } else {
      RunKnown(c, states, steps, events, k - 1);
      assert StepAt(c, states, steps, events, k - 1);
      StepFine(c, states[k - 1], steps[k - 1], HistoryOf(states, steps, k - 1));
      hide Known, Faithful, Reason;
    }
  }

  /** In every state, the last call still runs and was not answered yet, or it was
      answered by exactly one event; before the first call nothing is answered. */
  lemma {:induction false} EveryCallIsAnsweredOnce(c: Config, states: seq<State>, steps: seq<Step>, events: seq<Event>, k: nat)
      returns (a: nat)
    requires IsRun(c, states, steps, events) && k < |states|
    ensures Told(states, steps, events, k, a)
    decreases k
  {
    hide Next, Enabled, Desync, StoreInv, HistoryBy, Asked, Known, Faithful, Reason;
    a := 0;
    if k == 0 {
      var store, size, late :| StoreInv(c, store) && states[0] == Init(store, size, late);
    } else {
      a := EveryCallIsAnsweredOnce(c, states, steps, events, k - 1);
      RunKnown(c, states, steps, events, k - 1);
      assert StepAt(c, states, steps, events, k - 1);
      StepFine(c, states[k - 1], steps[k - 1], HistoryOf(states, steps, k - 1));
      ToldOn(states, steps, events, k - 1, a);
      hide Doing, Told, IsRun;
      if events[k - 1] != Silent {
        a := k - 1;
      }
    }
  }

  /** What a caller sees answers the last call, and nothing was seen in between; its
      codes and reasons are those of the environment. */
  lemma RunAnswersCalls(c: Config, states: seq<State>, steps: seq<Step>, events: seq<Event>, k: nat)
    requires IsRun(c, states, steps, events) && k < |steps| && events[k] != Silent
    ensures Reason(events[k], HistoryOf(states, steps, k + 1))
    ensures match LastCall(steps, k + 1)
      case None => false
      case Some(i) => i <= k && IsCall(steps[i]) && Answers(Asked(states[i], steps[i]), events[k]) && Quiet(events, i, k)
  {
    RunKnown(c, states, steps, events, k);
    var a := EveryCallIsAnsweredOnce(c, states, steps, events, k);
    assert StepAt(c, states, steps, events, k);
    StepFine(c, states[k], steps[k], HistoryOf(states, steps, k));
    ToldOn(states, steps, events, k, a);
    hide Next, Enabled, Desync, StoreInv, HistoryBy, Asked, Known, Reason, IsRun, Doing;
  }
}
