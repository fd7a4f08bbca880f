/** Calls and answers of the read-ahead protocol: every finished call answers the call
    that started it, once, and fails only for a reason that the environment gave. */
module AsyncAnswers {
  import opened Common
  import opened Source
  import opened AsyncProtocol
  import opened AsyncProof

  // ----- calls and their answers -----

  predicate IsCall(step: Step) {
    step.CallRead? || step.CallSeek?
  }

  /** What a call asks for. A relative seek starts from the caller's position. */
  datatype Task = Nothing | ToRead(size: nat) | ToSeek(target: int) | ToTell

  function Asked(s: State, step: Step): Task {
    match step
    case CallRead(size) => ToRead(size)
    case CallSeek(pos, whence) =>
      (match whence
       case Set => ToSeek(pos)
       case Cur => ToSeek(ClientPos(s) + pos)
       case Size => ToTell
       case Other => ToSeek(pos))
    case _ => Nothing
  }

  predicate Answers(task: Task, ev: Event) {
    match ev
    case Silent => false
    case DidRead(size, _, _) => task == ToRead(size)
    case DidSeek(target, _) => task == ToSeek(target)
    case DidSize(_) => task == ToTell
  }

  /** What the running call is about. */
  function Doing(s: State): Task {
    if Reading(s.reader) then
      if s.reader.req.skip then ToSeek(s.reader.req.start + s.reader.req.size) else ToRead(s.reader.req.size)
    else if s.reader.SeekLock? then ToSeek(s.reader.pos)
    else if Seeking(s.reader) then ToSeek(s.seekPos)
    else Nothing
  }

  /** A call that returns answers what was asked, and until then it is about that. */
  ghost predicate Faithful(task: Task, o: (State, Event)) {
    if o.1 == Silent then Doing(o.0) == task else Answers(task, o.1) && Doing(o.0) == Nothing
  }

  lemma TaskStep(c: Config, s: State, step: Step)
    requires s.ring.Valid() && Enabled(s, step)
    ensures IsCall(step) ==> Doing(s) == Nothing
    ensures Faithful(if IsCall(step) then Asked(s, step) else Doing(s), Next(c, s, step))
  {
    match step {
      case ReaderRun(interrupted) => TaskReader(c, s, interrupted);
      case FillerRun(interrupted, reply) => TaskFiller(c, s, interrupted, reply);
      case CallSeek(pos, whence) => TaskSeek(c, s, pos, whence);
      case _ => hide RunReader, RunFiller, SeekCall;
    }
    hide RunReader, RunFiller, SeekCall, Faithful;
  }

  lemma TaskSeek(c: Config, s: State, pos: int, whence: Whence)
    requires s.ring.Valid() && s.reader.Idle?
    ensures Faithful(Asked(s, CallSeek(pos, whence)), SeekCall(c, s, pos, whence))
  {
    TaskSeekTo(c, s, pos);
    TaskSeekTo(c, s, pos + s.logicalPos);
    hide SeekTo;
  }

  lemma TaskSeekTo(c: Config, s: State, target: int)
    requires s.ring.Valid() && s.reader.Idle?
    ensures Faithful(ToSeek(target), SeekTo(c, s, target))
  {
    SeekToIs(c, s, target);
    hide SeekTo, Near;
  }

  /** The target is kept behind the position, or will soon be read. */
  predicate Near(s: State, target: int) {
    s.logicalPos - s.ring.readPos <= target < s.logicalPos + s.ring.Size() + SHORT_SEEK_THRESHOLD
  }

  predicate IsRefused(c: Config, s: State, target: int) {
    target < 0 || (!Near(s, target) && target != s.logicalPos && (c.logicalSize <= 0 || target > c.logicalSize))
  }

  /** The ways on which a seek sets out. */
  lemma SeekToIs(c: Config, s: State, target: int)
    requires s.ring.Valid() && s.reader.Idle?
    ensures IsRefused(c, s, target) ==> SeekTo(c, s, target) == (s, DidSeek(target, AVERROR_EINVAL))
    ensures target == s.logicalPos ==> SeekTo(c, s, target) == (s, DidSeek(target, target))
    ensures !IsRefused(c, s, target) && target > s.logicalPos && Near(s, target) ==>
      SeekTo(c, s, target) == (StartRead(s, target - s.logicalPos, true), Silent)
    ensures !IsRefused(c, s, target) && target < s.logicalPos && Near(s, target) ==>
      SeekTo(c, s, target) ==
        (s.(ring := s.ring.(readPos := s.ring.readPos - (s.logicalPos - target)), logicalPos := target), DidSeek(target, target))
    ensures !IsRefused(c, s, target) && target != s.logicalPos && !Near(s, target) ==>
      SeekTo(c, s, target) == (s.(reader := SeekLock(target)), Silent)
  {
  }

  lemma TaskReader(c: Config, s: State, interrupted: bool)
    requires s.ring.Valid()
    ensures Faithful(Doing(s), RunReader(c, s, interrupted))
  {
    if s.reader.ReadCopy? {
      var req := s.reader.req;
      assert RunReader(c, s, interrupted) == (Copy(c, s, req, s.reader.n), Silent);
      TaskCopy(c, s, req, s.reader.n);
      hide Copy, RunReader;
    } else if Reading(s.reader) {
      TaskRead(c, s, interrupted);
      hide RunReader, Faithful;
    } else {
      TaskHandover(c, s, interrupted);
      hide RunReader, Faithful;
    }
  }

  lemma TaskRead(c: Config, s: State, interrupted: bool)
    requires s.ring.Valid() && Reading(s.reader) && !s.reader.ReadCopy?
    ensures Faithful(Doing(s), RunReader(c, s, interrupted))
  {
    if s.reader.ReadHead? {
      HeadIs(c, s, interrupted);
      hide RunReader;
    } else if s.reader.ReadDone? {
      DoneIs(c, s, interrupted);
      hide RunReader;
    } else {
      LockIs(c, s, interrupted);
      hide RunReader;
    }
  }

  lemma HeadIs(c: Config, s: State, interrupted: bool)
    requires s.ring.Valid() && s.reader.ReadHead?
    ensures var req := s.reader.req;
      && (req.toRead <= 0 ==> RunReader(c, s, interrupted) == (s.(reader := ReadDone(req)), Silent))
      && (req.toRead > 0 && (s.abort || interrupted) ==>
            RunReader(c, s, interrupted) == (s.(abort := true, reader := ReadDone(req.(ret := AVERROR_EXIT))), Silent))
      && (req.toRead > 0 && !s.abort && !interrupted ==>
            RunReader(c, s, interrupted) == (s.(reader := ReadCopy(req, Min(req.toRead, s.ring.Size()))), Silent))
  {
    hide Copy;
  }

  lemma DoneIs(c: Config, s: State, interrupted: bool)
    requires s.ring.Valid() && s.reader.ReadDone?
    ensures var req := s.reader.req;
      RunReader(c, s, interrupted) ==
        (Sleep(s, Idle), if req.skip then DidSeek(req.start + req.size, s.logicalPos) else DidRead(req.size, req.ret, req.out))
  {
    hide Copy;
  }

  lemma LockIs(c: Config, s: State, interrupted: bool)
    requires s.ring.Valid() && (s.reader.ReadLock? || s.reader.ReadWoken? || s.reader.ReadSleep?)
    ensures s.reader.ReadSleep? || s.locked ==> RunReader(c, s, interrupted) == (s, Silent)
    ensures !s.reader.ReadSleep? && !s.locked ==> RunReader(c, s, interrupted) == (s.(reader := ReadHead(s.reader.req), locked := true), Silent)
  {
    hide Copy;
  }

  lemma TaskHandover(c: Config, s: State, interrupted: bool)
    requires s.ring.Valid() && !Reading(s.reader)
    ensures Faithful(Doing(s), RunReader(c, s, interrupted))
  {
  }

  lemma TaskCopy(c: Config, s: State, req: Request, n: nat)
    requires s.ring.Valid()
    ensures var s' := Copy(c, s, req, n);
      Reading(s'.reader) && s'.reader.req.skip == req.skip && s'.reader.req.size == req.size && s'.reader.req.start == req.start
  {
    if 0 < n <= s.ring.Size() && n <= req.toRead {
      var bytes := s.ring.data[s.ring.readPos..s.ring.readPos + n];
      var req' := req.(toRead := req.toRead - n, out := req.out + bytes, ret := req.size - (req.toRead - n));
      assert var r := Copy(c, s, req, n).reader; r == ReadDone(req') || r == ReadSleep(req');
    } else if s.eof {
      assert Copy(c, s, req, n).reader.ReadDone?;
    } else {
      assert Copy(c, s, req, n).reader == ReadSleep(req);
    }
  }

  lemma TaskFiller(c: Config, s: State, interrupted: bool, reply: Reply)
    ensures Faithful(Doing(s), (RunFiller(c, s, interrupted, reply), Silent))
  {
    ReaderOnlyWoken(c, s, interrupted, reply);
    hide RunFiller;
  }

  /** The filler does nothing to the reader but wake it up. */
  lemma ReaderOnlyWoken(c: Config, s: State, interrupted: bool, reply: Reply)
    ensures var s' := RunFiller(c, s, interrupted, reply);
      (s'.reader == s.reader || s'.reader == WakeReader(s.reader)) && s'.seekPos == s.seekPos
  {
    FillerIs(c, s, interrupted, reply);
    hide WakeReader, FillerTop, FillerRead, RunFiller;
    if s.filler.Top? && !s.locked {
      TopErrors(c, s, interrupted, reply);
    } else if s.filler.Fill? {
      FillErrors(c, s, s.filler.size, s.filler.put, reply);
    }
  }

  /** Apart from its work at the start and with the inner source, the filler only
      makes known what it has read. */
  lemma FillerIs(c: Config, s: State, interrupted: bool, reply: Reply)
    ensures s.filler.Top? && !s.locked ==> RunFiller(c, s, interrupted, reply) == FillerTop(c, s, interrupted, reply)
    ensures s.filler.Fill? ==> RunFiller(c, s, interrupted, reply) == FillerRead(c, s, s.filler.size, s.filler.put, reply)
    ensures !(s.filler.Top? && !s.locked) && !s.filler.Fill? && !s.filler.Post? ==>
      var s' := RunFiller(c, s, interrupted, reply); s' == s.(ring := s'.ring, filler := s'.filler)
    ensures s.filler.Post? ==>
      var s' := RunFiller(c, s, interrupted, reply);
      && s' == s.(eof := s'.eof, ioError := s'.ioError, reader := s'.reader, filler := s'.filler)
      && (s'.reader == s.reader || (!s.locked && s'.reader == WakeReader(s.reader)))
      && (s'.ioError == s.ioError || (!s.locked && s'.ioError == s.innerError))
  {
    hide FillerTop, FillerRead, WakeReader;
  }

  // ----- histories of a run -----

  /** The last call among the first `k` steps, and the last answer since. */
  function LastCall(steps: seq<Step>, k: nat): Option<nat>
    requires k <= |steps|
  {
    if k == 0 then None else if IsCall(steps[k - 1]) then Some(k - 1) else LastCall(steps, k - 1)
  }

  ghost predicate Quiet(events: seq<Event>, a: nat, b: nat) {
    forall j :: a <= j < b && j < |events| ==> events[j] == Silent
  }

  /** The call at `i` still runs in state `k`, or was answered by the event at `a`. */
  ghost predicate Runs(states: seq<State>, steps: seq<Step>, events: seq<Event>, i: nat, k: nat)
    requires i < k <= |steps| == |events| && |states| == |steps| + 1
  {
    IsCall(steps[i]) && Doing(states[k]) == Asked(states[i], steps[i]) && Quiet(events, i, k)
  }

  ghost predicate Answered(states: seq<State>, steps: seq<Step>, events: seq<Event>, i: nat, a: nat, k: nat)
    requires i <= a < k <= |steps| == |events| && |states| == |steps| + 1
  {
    && IsCall(steps[i]) && Doing(states[k]) == Nothing
    && Answers(Asked(states[i], steps[i]), events[a]) && Quiet(events, i, a) && Quiet(events, a + 1, k)
  }

  ghost predicate Told(states: seq<State>, steps: seq<Step>, events: seq<Event>, k: nat, a: nat)
    requires k <= |steps| == |events| && |states| == |steps| + 1
  {
    match LastCall(steps, k)
    case None => Doing(states[k]) == Nothing && Quiet(events, 0, k)
    case Some(i) => i < k && (Runs(states, steps, events, i, k) || (i <= a < k && Answered(states, steps, events, i, a, k)))
  }

  lemma ToldOn(states: seq<State>, steps: seq<Step>, events: seq<Event>, k: nat, a: nat)
    requires k < |steps| == |events| && |states| == |steps| + 1
    requires Told(states, steps, events, k, a) && (IsCall(steps[k]) ==> Doing(states[k]) == Nothing)
    requires Faithful(if IsCall(steps[k]) then Asked(states[k], steps[k]) else Doing(states[k]), (states[k + 1], events[k]))
    ensures Told(states, steps, events, k + 1, if events[k] != Silent then k else a)
  {
    hide Doing, Asked;
  }

  /** In every state, the last call still runs and was not answered yet, or it was
      answered by exactly one event; before the first call nothing is answered. */
  lemma {:induction false} EveryCallIsAnsweredOnce(c: Config, states: seq<State>, steps: seq<Step>, events: seq<Event>, k: nat)
      returns (a: nat)
    requires c.forwards > 0 && IsRun(c, states, steps, events) && k < |states|
    ensures Told(states, steps, events, k, a)
    decreases k
  {
    hide Next, Inv, Enabled, Asked, Faithful;
    a := 0;
    if k > 0 {
      a := EveryCallIsAnsweredOnce(c, states, steps, events, k - 1);
      assert StepAt(c, states, steps, events, k - 1);
      TaskStep(c, states[k - 1], steps[k - 1]);
      ToldOn(states, steps, events, k - 1, a);
      hide *;
      if events[k - 1] != Silent {
        a := k - 1;
      }
    }
  }

  // ----- why a call falls short -----

  /** What happened so far: the codes with which the inner source failed, those since
      the last call, whether something interrupted, and how many bytes the ring held
      when the reader looked last. */
  datatype History = History(faults: set<int>, since: set<int>, stopped: bool, looked: nat)

  /** The inner source fails in a read or in a seek. */
  function FaultBy(s: State, step: Step): set<int> {
    if step.FillerRun? && step.reply.Fail? && (s.filler.Fill? || ServesSeek(s, step)) then {step.reply.code} else {}
  }

  predicate ServesSeek(s: State, step: Step) {
    step.FillerRun? && s.filler.Top? && !s.locked && !s.abort && !step.interrupted && s.seekRequest
  }

  /** The close, and an interruption where one is looked for. */
  predicate StopsBy(s: State, step: Step) {
    || step.Close? || step.InnerInterrupt?
    || (step.ReaderRun? && step.interrupted && ((s.reader.ReadHead? && s.reader.req.toRead > 0) || s.reader.SeekHead?))
    || (step.FillerRun? && step.interrupted && s.filler.Top? && !s.locked)
  }

  function HistoryBy(s: State, step: Step, h: History): History
    requires s.ring.Valid()
  {
    History(h.faults + FaultBy(s, step), if IsCall(step) then {} else h.since + FaultBy(s, step), h.stopped || StopsBy(s, step),
            if step.ReaderRun? && s.reader.ReadHead? then s.ring.Size() else h.looked)
  }

  ghost predicate ErrorsKnown(ioError: int, innerError: int, abort: bool, faults: set<int>) {
    && (ioError == 0 || ioError == AVERROR_EOF || (ioError == AVERROR_EXIT && abort) || ioError in faults)
    && (innerError == 0 || innerError == AVERROR_EOF || innerError in faults)
  }

  ghost predicate ReadKnown(c: Config, r: Reader, logicalPos: nat, ioError: int, abort: bool, faults: set<int>, looked: nat) {
    && (r.ReadCopy? ==> r.n == Min(r.req.toRead, looked))
    && (r.ReadDone? && !r.req.skip ==> ReadReason(r.req.size, r.req.ret, abort, faults, looked))
    && (r.ReadDone? && r.req.skip && r.req.toRead > 0 ==> abort || logicalPos >= |c.src| || ioError in faults)
  }

  /** A read gives what the ring held, or as much of it as it was asked for; it fails at
      the end, after an interruption, or with a code of the inner source. */
  ghost predicate ReadReason(size: nat, ret: int, stopped: bool, faults: set<int>, looked: nat) {
    && (ret > 0 ==> ret == Min(size, looked))
    && (ret < 0 ==> ret == AVERROR_EOF || (ret == AVERROR_EXIT && stopped) || ret in faults)
  }

  ghost predicate ReasonInv(c: Config, s: State, h: History) {
    && s.abort == h.stopped
    && ErrorsKnown(s.ioError, s.innerError, s.abort, h.faults)
    && (Seeking(s.reader) && s.seekCompleted && s.seekRet < 0 ==> s.seekRet in h.since)
    && ReadKnown(c, s.reader, s.logicalPos, s.ioError, s.abort, h.faults, h.looked)
  }

  lemma ReasonCall(c: Config, s: State, step: Step, h: History)
    requires s.ring.Valid() && ReasonInv(c, s, h) && Enabled(s, step)
    requires !step.ReaderRun? && !step.FillerRun?
    ensures ReasonInv(c, Next(c, s, step).0, HistoryBy(s, step, h))
  {
    hide RunReader, RunFiller, SeekCall, WakeReader;
    if step.CallSeek? {
      assert Next(c, s, step) == SeekCall(c, s, step.pos, step.whence);
      hide Next;
      SeekCallReader(c, s, step.pos, step.whence);
    } else {
      hide Next;
      KindStep(c, s, step);
      Wakes(s.reader);
    }
  }

  lemma Wakes(r: Reader)
    ensures var r' := WakeReader(r); (r' == r || r'.ReadWoken? || r'.SeekWoken?) && (Seeking(r') ==> Seeking(r))
  {
  }

  lemma KindStep(c: Config, s: State, step: Step)
    requires s.ring.Valid() && Enabled(s, step) && !step.ReaderRun? && !step.FillerRun? && !step.CallSeek?
    ensures var s' := Next(c, s, step).0;
      && s'.ioError == s.ioError && s'.innerError == s.innerError && s'.abort == (s.abort || step.Close? || step.InnerInterrupt?)
      && (IsCall(step) || step.Close? ==> s'.reader.ReadLock? || s'.reader.Joining?)
      && (!IsCall(step) && !step.Close? ==> s'.reader == s.reader || s'.reader == WakeReader(s.reader))
      && s'.seekCompleted == s.seekCompleted && s'.seekRet == s.seekRet && s'.logicalPos == s.logicalPos
  {
    hide RunReader, RunFiller, SeekCall, WakeFiller, WakeReader;
    match step {
      case CallRead(size) => assert Next(c, s, step) == (StartRead(s, size, false), Silent);
      case ReaderSpurious => assert Next(c, s, step) == (s.(reader := WakeReader(s.reader)), Silent);
      case Close => assert Next(c, s, step) == (s.(abort := true, reader := Joining, filler := WakeFiller(s.filler)), Silent);
      case FillerSpurious => assert Next(c, s, step) == (s.(filler := Top), Silent);
      case InnerInterrupt => assert Next(c, s, step) == (s.(abort := true), Silent);
    }
    hide Next;
  }

  lemma SeekCallReader(c: Config, s: State, pos: int, whence: Whence)
    requires s.ring.Valid() && s.reader.Idle?
    ensures var s' := SeekCall(c, s, pos, whence).0;
      && (s'.reader.Idle? || s'.reader.ReadLock? || s'.reader.SeekLock?)
      && s'.abort == s.abort && s'.ioError == s.ioError && s'.innerError == s.innerError
  {
    hide SeekTo;
    match whence {
      case Set => SeekToReader(c, s, pos);
      case Cur => SeekToReader(c, s, pos + s.logicalPos);
      case _ =>
    }
  }

  lemma SeekToReader(c: Config, s: State, target: int)
    requires s.ring.Valid() && s.reader.Idle?
    ensures var s' := SeekTo(c, s, target).0;
      && (s'.reader.Idle? || s'.reader.ReadLock? || s'.reader.SeekLock?)
      && s'.abort == s.abort && s'.ioError == s.ioError && s'.innerError == s.innerError
  {
    SeekToIs(c, s, target);
    hide SeekTo, Near;
  }

  lemma ReasonReader(c: Config, s: State, interrupted: bool, h: History)
    requires Inv(c, s) && ReasonInv(c, s, h)
    ensures s.ring.Valid() && ReasonInv(c, RunReader(c, s, interrupted).0, HistoryBy(s, ReaderRun(interrupted), h))
  {
    assert s.ring.Valid() by {
      hide SeekInv, RequestInv, EofInv, SleepInv, Matches;
    }
    if s.reader.ReadCopy? {
      assert RunReader(c, s, interrupted).0 == Copy(c, s, s.reader.req, s.reader.n);
      hide Inv, ReasonInv, Copy, RunReader;
      ReasonCopy(c, s, h);
      assert HistoryBy(s, ReaderRun(interrupted), h) == h;
    } else {
      hide Inv, ReasonInv, RunReader, HistoryBy;
      if s.reader.ReadHead? {
        ReasonHead(c, s, interrupted, h);
      } else {
        ReasonOther(c, s, interrupted, h);
      }
    }
  }

  lemma ReasonHead(c: Config, s: State, interrupted: bool, h: History)
    requires Inv(c, s) && ReasonInv(c, s, h) && s.reader.ReadHead?
    ensures s.ring.Valid() && ReasonInv(c, RunReader(c, s, interrupted).0, HistoryBy(s, ReaderRun(interrupted), h))
  {
    assert s.ring.Valid();
    var req := s.reader.req;
    assert req.toRead + |req.out| == req.size && (!req.skip ==> req.ret == 0) by {
      hide WindowInv, SeekInv, EofInv, SleepInv, Matches;
    }
    hide Inv;
    HeadIs(c, s, interrupted);
    hide RunReader;
  }

  lemma ReasonOther(c: Config, s: State, interrupted: bool, h: History)
    requires s.ring.Valid() && ReasonInv(c, s, h) && !s.reader.ReadCopy? && !s.reader.ReadHead?
    ensures ReasonInv(c, RunReader(c, s, interrupted).0, HistoryBy(s, ReaderRun(interrupted), h))
  {
    OtherReader(c, s, interrupted);
    hide RunReader;
  }

  /** Apart from the copying, the reader only locks, sleeps, asks and returns. */
  ghost predicate OnlyAsks(s: State, interrupted: bool, s': State) {
    && s'.ioError == s.ioError && s'.innerError == s.innerError && s'.abort == (s.abort || (interrupted && s.reader.SeekHead?))
    && (!s'.reader.ReadDone? && !s'.reader.ReadCopy?)
    && (Seeking(s'.reader) && s'.seekCompleted ==> Seeking(s.reader) && s.seekCompleted && s'.seekRet == s.seekRet)
  }

  lemma OtherReader(c: Config, s: State, interrupted: bool)
    requires s.ring.Valid() && !s.reader.ReadCopy? && !s.reader.ReadHead?
    ensures OnlyAsks(s, interrupted, RunReader(c, s, interrupted).0)
  {
    if s.reader.SeekHead? {
      HeadAsks(c, s, interrupted);
    } else if Reading(s.reader) {
      ReadAsks(c, s, interrupted);
    } else {
      SeekAsks(c, s, interrupted);
    }
    hide *;
  }

  lemma HeadAsks(c: Config, s: State, interrupted: bool)
    requires s.ring.Valid() && s.reader.SeekHead?
    ensures OnlyAsks(s, interrupted, RunReader(c, s, interrupted).0)
  {
  }

  lemma ReadAsks(c: Config, s: State, interrupted: bool)
    requires s.ring.Valid() && Reading(s.reader) && !s.reader.ReadCopy? && !s.reader.ReadHead?
    ensures OnlyAsks(s, interrupted, RunReader(c, s, interrupted).0)
  {
    hide Copy, WakeFiller;
  }

  lemma SeekAsks(c: Config, s: State, interrupted: bool)
    requires s.ring.Valid() && !Reading(s.reader) && !s.reader.SeekHead?
    ensures OnlyAsks(s, interrupted, RunReader(c, s, interrupted).0)
  {
    hide Copy, WakeFiller;
  }

  lemma ReasonCopy(c: Config, s: State, h: History)
    requires Inv(c, s) && ReasonInv(c, s, h) && s.reader.ReadCopy?
    ensures s.ring.Valid() && ReasonInv(c, Copy(c, s, s.reader.req, s.reader.n), h)
  {
    if s.reader.n > 0 {
      ReasonCopied(c, s, h);
    } else {
      ReasonNothing(c, s, h);
    }
    hide *;
  }

  lemma ReasonCopied(c: Config, s: State, h: History)
    requires Inv(c, s) && ReasonInv(c, s, h) && s.reader.ReadCopy? && s.reader.n > 0
    ensures s.ring.Valid() && ReasonInv(c, Copy(c, s, s.reader.req, s.reader.n), h)
  {
    CopyShape(c, s, s.reader.req, s.reader.n);
    CopyDone(c, s, s.reader.req, s.reader.n);
    hide WindowInv, SeekInv, EofInv, SleepInv, Matches, Copy;
  }

  /** What a copy that finishes the call returns. */
  lemma CopyDone(c: Config, s: State, req: Request, n: nat)
    requires s.ring.Valid() && 0 < n <= s.ring.Size() && n <= req.toRead
    ensures var r := Copy(c, s, req, n).reader;
      && (r.ReadDone? || r.ReadSleep?) && r.req.skip == req.skip && r.req.size == req.size && r.req.toRead == req.toRead - n
      && r.req.ret == req.size - r.req.toRead && (r.ReadDone? && r.req.skip ==> r.req.toRead == 0)
  {
    var bytes := s.ring.data[s.ring.readPos..s.ring.readPos + n];
    var req' := req.(toRead := req.toRead - n, out := req.out + bytes, ret := req.size - (req.toRead - n));
    assert var r := Copy(c, s, req, n).reader; r == ReadDone(req') || r == ReadSleep(req');
  }

  lemma ReasonNothing(c: Config, s: State, h: History)
    requires Inv(c, s) && ReasonInv(c, s, h) && s.reader.ReadCopy? && s.reader.n == 0
    ensures s.ring.Valid() && ReasonInv(c, Copy(c, s, s.reader.req, 0), h)
  {
    hide SleepInv, Matches;
  }

  lemma ReasonFiller(c: Config, s: State, interrupted: bool, reply: Reply, h: History)
    requires Inv(c, s) && ReasonInv(c, s, h) && HonestReply(reply)
    ensures s.ring.Valid() && ReasonInv(c, RunFiller(c, s, interrupted, reply), HistoryBy(s, FillerRun(interrupted, reply), h))
  {
    assert s.ring.Valid() && s.locked == HoldsMutex(s.reader) by {
      hide SeekInv, RequestInv, EofInv, Matches;
    }
    hide Inv;
    FillerIs(c, s, interrupted, reply);
    hide RunFiller, FillerTop, FillerRead;
    if s.filler.Top? && !s.locked {
      hide ReasonInv;
      ReasonTop(c, s, interrupted, reply, h);
    } else if s.filler.Fill? {
      hide ReasonInv;
      ReasonFill(c, s, s.filler.size, s.filler.put, reply, h);
    }
  }

  lemma ReasonTop(c: Config, s: State, interrupted: bool, reply: Reply, h: History)
    requires s.ring.Valid() && ReasonInv(c, s, h) && HonestReply(reply) && s.filler.Top? && !s.locked && !HoldsMutex(s.reader)
    ensures ReasonInv(c, FillerTop(c, s, interrupted, reply), HistoryBy(s, FillerRun(interrupted, reply), h))
  {
    TopErrors(c, s, interrupted, reply);
    hide FillerTop;
  }

  /** What the filler reports at the start of its loop. */
  lemma TopErrors(c: Config, s: State, interrupted: bool, reply: Reply)
    requires s.filler.Top?
    ensures var s', stop, serve := FillerTop(c, s, interrupted, reply), s.abort || interrupted, s.seekRequest;
      && (s'.reader == s.reader || s'.reader == WakeReader(s.reader)) && s'.innerError == s.innerError && s'.seekPos == s.seekPos
      && s'.abort == stop
      && s'.ioError == (if stop then AVERROR_EXIT else if !serve then s.ioError else if reply.Fail? then reply.code else 0)
      && (stop || !serve ==> s'.seekCompleted == s.seekCompleted && s'.seekRet == s.seekRet)
      && (!stop && serve ==> s'.seekRet == if reply.Fail? then reply.code else s.seekPos)
  {
    hide WakeReader;
  }

  lemma ReasonFill(c: Config, s: State, size: nat, put: seq<byte>, reply: Reply, h: History)
    requires s.ring.Valid() && ReasonInv(c, s, h) && HonestReply(reply) && s.filler == Fill(size, put)
    ensures forall b :: ReasonInv(c, FillerRead(c, s, size, put, reply), HistoryBy(s, FillerRun(b, reply), h))
  {
    FillErrors(c, s, size, put, reply);
    hide FillerRead;
  }

  lemma FillErrors(c: Config, s: State, size: nat, put: seq<byte>, reply: Reply)
    ensures var s' := FillerRead(c, s, size, put, reply);
      && s' == s.(innerError := s'.innerError, innerPos := s'.innerPos, filler := s'.filler)
      && (s'.innerError == s.innerError || s'.innerError == 0 || s'.innerError == AVERROR_EOF || (reply.Fail? && s'.innerError == reply.code))
  {
    if reply.Deliver? && s.innerPos < |c.src| {
      FillDelivers(c, s, size, put, reply);
      hide FillerRead;
    }
  }

  lemma FillDelivers(c: Config, s: State, size: nat, put: seq<byte>, reply: Reply)
    requires reply.Deliver? && s.innerPos < |c.src|
    ensures var s' := FillerRead(c, s, size, put, reply);
      && s' == s.(innerError := s'.innerError, innerPos := s'.innerPos, filler := s'.filler)
      && (s'.innerError == s.innerError || s'.innerError == 0)
  {
    var len := Min(Min(Max(reply.n, 1), size - |put|), |c.src| - s.innerPos);
    if len <= 0 {
      assert FillerRead(c, s, size, put, reply) == s.(filler := Commit(put, 1));
    } else {
      var put' := put + c.src[s.innerPos..s.innerPos + len];
      assert FillerRead(c, s, size, put, reply) ==
        s.(innerError := 0, innerPos := s.innerPos + len, filler := if |put'| >= size then Commit(put', len) else Fill(size, put'));
    }
    hide FillerRead;
  }

  ghost predicate Reason(c: Config, atOnce: bool, ev: Event, h: History) {
    match ev
    case DidRead(size, ret, _) => ReadReason(size, ret, h.stopped, h.faults, h.looked)
    case DidSeek(target, ret) =>
      && (ret < 0 ==> (ret == AVERROR_EINVAL && atOnce) || (ret == AVERROR_EXIT && h.stopped) || ret in h.since)
      && (0 <= ret < target ==> h.stopped || ret >= |c.src| || h.faults != {})
    case _ => true
  }

  /** A seek is refused exactly when its target is negative, or neither kept nor soon
      read nor within the size that the source claims. It is answered at once exactly
      when it is refused or its target is kept behind the position, which it moves to. */
  lemma RefusedExactly(c: Config, s: State, target: int)
    requires s.ring.Valid() && s.reader.Idle?
    ensures var (s', ev), pos := SeekTo(c, s, target), s.logicalPos;
      && ClientPos(s) == pos
      && (ev == DidSeek(target, AVERROR_EINVAL) <==> IsRefused(c, s, target))
      && (ev != Silent ==> ev == DidSeek(target, AVERROR_EINVAL) || ev == DidSeek(target, target))
      && (target >= 0 ==> (ev == DidSeek(target, target) <==> target == pos || (Near(s, target) && target < pos)))
      && (ev != Silent ==> s'.logicalPos - s'.ring.readPos == pos - s.ring.readPos && s'.ring.data == s.ring.data)
      && (ev == Silent ==> ClientPos(s') == pos && s'.reader.ReadLock? == Near(s, target) && s' == s.(reader := s'.reader))
  {
    SeekToIs(c, s, target);
    hide SeekTo;
    if !IsRefused(c, s, target) && target != s.logicalPos {
      hide IsRefused;
      if Near(s, target) {
        hide Near;
      }
    }
  }

  lemma EventReason(c: Config, s: State, step: Step, h: History)
    requires Inv(c, s) && ReasonInv(c, s, h) && Enabled(s, step)
    ensures s.ring.Valid() && Reason(c, IsCall(step), Next(c, s, step).1, HistoryBy(s, step, h))
  {
    assert s.ring.Valid() by {
      hide SeekInv, RequestInv, EofInv, SleepInv, Matches;
    }
    match step {
      case CallSeek(pos, whence) =>
        assert Next(c, s, step) == SeekCall(c, s, pos, whence);
        hide Inv, Next;
        RefusedExactly(c, s, pos);
        RefusedExactly(c, s, pos + s.logicalPos);
        hide SeekTo;
      case ReaderRun(interrupted) =>
        assert Next(c, s, step) == RunReader(c, s, interrupted);
        ReaderReason(c, s, interrupted, h);
        hide Inv, Next, RunReader;
      case _ => hide Inv, RunFiller;
    }
  }

  lemma ReaderReason(c: Config, s: State, interrupted: bool, h: History)
    requires Inv(c, s) && ReasonInv(c, s, h)
    ensures s.ring.Valid() && Reason(c, false, RunReader(c, s, interrupted).1, HistoryBy(s, ReaderRun(interrupted), h))
  {
    assert s.ring.Valid() by {
      hide SeekInv, RequestInv, EofInv, SleepInv, Matches;
    }
    hide WindowInv, EofInv, SleepInv, Matches, Copy;
    if s.reader.ReadDone? {
      assert RunReader(c, s, interrupted).1 ==
        var req := s.reader.req;
        if req.skip then DidSeek(req.start + req.size, s.logicalPos) else DidRead(req.size, req.ret, req.out);
      hide RunReader;
    } else if !s.reader.SeekHead? {
      assert RunReader(c, s, interrupted).1 == Silent;
      hide RunReader;
    }
  }

  function HistoryOf(states: seq<State>, steps: seq<Step>, k: nat): History
    requires k <= |steps| && |states| == |steps| + 1 && forall j :: 0 <= j < |states| ==> states[j].ring.Valid()
  {
    if k == 0 then History({}, {}, false, 0) else HistoryBy(states[k - 1], steps[k - 1], HistoryOf(states, steps, k - 1))
  }

  ghost predicate RingsValid(states: seq<State>) {
    forall j :: 0 <= j < |states| ==> states[j].ring.Valid()
  }

  lemma {:induction false} RunReasons(c: Config, states: seq<State>, steps: seq<Step>, events: seq<Event>, k: nat)
    requires c.forwards > 0 && IsRun(c, states, steps, events) && k < |states|
    ensures RingsValid(states) && ReasonInv(c, states[k], HistoryOf(states, steps, k))
    decreases k
  {
    AllValid(c, states, steps, events);
    if k > 0 {
      RunReasons(c, states, steps, events, k - 1);
      RunInv(c, states, steps, events, k - 1);
      assert StepAt(c, states, steps, events, k - 1);
      hide Inv, ReasonInv, IsRun, HistoryBy;
      StepReasons(c, states[k - 1], steps[k - 1], HistoryOf(states, steps, k - 1));
    } else {
      assert states[0] == Init(c);
    }
  }

  lemma AllValid(c: Config, states: seq<State>, steps: seq<Step>, events: seq<Event>)
    requires c.forwards > 0 && IsRun(c, states, steps, events)
    ensures RingsValid(states)
  {
    forall j | 0 <= j < |states|
      ensures states[j].ring.Valid()
    {
      RunInv(c, states, steps, events, j);
    }
  }

  lemma StepReasons(c: Config, s: State, step: Step, h: History)
    requires Inv(c, s) && ReasonInv(c, s, h) && Enabled(s, step)
    ensures s.ring.Valid() && ReasonInv(c, Next(c, s, step).0, HistoryBy(s, step, h))
  {
    assert s.ring.Valid() by {
      hide SeekInv, RequestInv, EofInv, SleepInv, Matches;
    }
    hide Inv, ReasonInv, RunReader, RunFiller, HistoryBy;
    match step {
      case ReaderRun(interrupted) => ReasonReader(c, s, interrupted, h);
      case FillerRun(interrupted, reply) => ReasonFiller(c, s, interrupted, reply, h);
      case _ => ReasonCall(c, s, step, h);
    }
  }

  /** What a caller sees answers the last call, and nothing was seen in between. It has
      a reason: a read gives what the ring held when it looked; it fails only at the end,
      after an interruption, or with a code with which the inner source failed; a seek is
      refused as a call, or fails after an interruption or with the code with which
      the inner source failed since the call, or stops early over one of these. */
  lemma RunAnswersCalls(c: Config, states: seq<State>, steps: seq<Step>, events: seq<Event>, k: nat)
    requires c.forwards > 0 && IsRun(c, states, steps, events) && k < |steps| && events[k] != Silent
    ensures RingsValid(states) && Reason(c, IsCall(steps[k]), events[k], HistoryOf(states, steps, k + 1))
    ensures match LastCall(steps, k + 1)
      case None => false
      case Some(i) => i <= k && IsCall(steps[i]) && Answers(Asked(states[i], steps[i]), events[k]) && Quiet(events, i, k)
  {
    RunReasons(c, states, steps, events, k);
    RunInv(c, states, steps, events, k);
    var a := EveryCallIsAnsweredOnce(c, states, steps, events, k);
    assert StepAt(c, states, steps, events, k);
    assert states[k].ring.Valid();
    EventReason(c, states[k], steps[k], HistoryOf(states, steps, k));
    TaskStep(c, states[k], steps[k]);
    ToldOn(states, steps, events, k, a);
    hide Inv, ReasonInv, IsRun, HistoryBy, Reason, Next, Enabled, Doing, Asked;
  }
}
