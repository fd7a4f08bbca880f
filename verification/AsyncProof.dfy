/** Safety of the read-ahead protocol: every run is a run of a plain source,
    and no wake-up is lost. */
module AsyncProof {
  import opened Common
  import opened Source
  import opened Ring
  import opened AsyncProtocol

  // ----- the specification: a source with a position -----

  /** What a caller may see when its position is `pos`, and what the position is
      afterwards. A seek that succeeds reaches its target unless the end, an
      error or an interruption (`stopped`) came first. */
  ghost predicate PlainStep(c: Config, pos: nat, ev: Event, pos': nat, stopped: bool) {
    match ev
    case Silent => pos' == pos
    case DidRead(size, ret, out) =>
      && Matches(c.src, pos, out)
      && ret <= size && (ret == 0 ==> size == 0)
      && (if ret >= 0 then |out| == ret && pos' == pos + ret else out == [] && pos' == pos)
      && (ret == AVERROR_EOF ==> pos >= |c.src|)
    case DidSeek(target, ret) =>
      && pos' == (if ret >= 0 then ret else pos)
      && (ret >= 0 ==> ret == target || (stopped && pos <= ret < target))
    case DidSize(ret) => pos' == pos && ret == c.logicalSize
  }

  // ----- the invariant -----

  predicate Reading(r: Reader) {
    r.ReadLock? || r.ReadHead? || r.ReadCopy? || r.ReadSleep? || r.ReadWoken? || r.ReadDone?
  }

  predicate Seeking(r: Reader) {
    r.SeekHead? || r.SeekSleep? || r.SeekWoken?
  }

  predicate HoldsMutex(r: Reader) {
    r.ReadHead? || r.ReadCopy? || r.ReadDone? || r.SeekHead?
  }

  predicate ReaderAsleep(r: Reader) {
    r.ReadSleep? || r.SeekSleep?
  }

  predicate Filling(f: Filler) {
    f.Fill? || f.Commit? || f.Post?
  }

  /** The bytes read from the inner URL that are not yet visible. */
  function Pending(f: Filler): seq<byte> {
    match f
    case Fill(_, put) => put
    case Commit(put, _) => put
    case _ => []
  }

  /** The space an unlocked write has reserved. */
  function Reserved(f: Filler): nat {
    match f
    case Fill(size, put) => Max(size, |put|)
    case Commit(put, _) => |put|
    case _ => 0
  }

  /** The position of the caller: it moves when a call returns. */
  function ClientPos(s: State): nat {
    if Reading(s.reader) then s.reader.req.start else s.logicalPos
  }

  /** The ring holds the source from `base` on, and the inner URL stands behind
      what is in the ring or about to be. */
  ghost predicate WindowInv(c: Config, ring: View, base: nat, innerPos: nat, eof: bool, lost: bool,
                            pending: seq<byte>, reserved: nat) {
    && ring.Valid() && ring.readPos <= c.backwards
    && |ring.data| + reserved <= c.Capacity() && |pending| <= reserved
    && Matches(c.src, base, ring.data)
    && Matches(c.src, base + |ring.data|, pending)
    && (lost ==> eof)
    && (!lost ==> innerPos == base + |ring.data| + |pending|)
  }

  /** Where the reader's position lies in the ring: `rebased` from the filler's
      reset until the reader's pickup. */
  ghost predicate SeekInv(logicalPos: nat, base: nat, readPos: nat, rebased: bool, abort: bool,
                          request: bool, completed: bool, ret: int, target: nat, seeking: bool, copying: bool) {
    && (!rebased ==> logicalPos == base + readPos)
    && (rebased ==> readPos == 0 && !copying)
    && (rebased && !abort ==> seeking && completed && ret == base)
    && (request && !abort ==> seeking)
    && (seeking && !abort ==> request == !completed && rebased == (completed && ret >= 0))
    && (seeking && !abort && completed && ret >= 0 ==> ret == target)
  }

  /** The running call of async_read_internal. */
  ghost predicate RequestInv(c: Config, r: Reader, logicalPos: nat, available: int, eof: bool, abort: bool) {
    Reading(r) ==>
      var req := r.req;
      && req.toRead + |req.out| == req.size
      && logicalPos == req.start + |req.out|
      && Matches(c.src, req.start, req.out)
      && (!r.ReadDone? ==> if req.skip then req.ret == |req.out| else req.out == [] && req.ret == 0)
      && (r.ReadCopy? ==> CopyInv(req, r.n, available, eof))
      && (r.ReadDone? && !req.skip ==> ReturnOk(c, req))
      && (r.ReadDone? && req.skip && req.toRead > 0 ==> eof || abort)
  }

  ghost predicate CopyInv(req: Request, n: nat, available: int, eof: bool) {
    && req.toRead > 0 && n <= available && n <= req.toRead
    && (n == 0 && eof ==> available == 0)
  }

  /** What a finished read may return. */
  ghost predicate ReturnOk(c: Config, req: Request) {
    && req.ret <= req.size
    && (if req.ret >= 0 then |req.out| == req.ret && (req.ret == 0 ==> req.size == 0) else req.out == [])
    && (req.ret == AVERROR_EOF ==> req.start >= |c.src|)
  }

  /** An end reported without an error is the end of the source; `end` is the
      source position behind the ring. */
  ghost predicate EofInv(c: Config, eof: bool, ioError: int, innerError: int, lost: bool, end: nat, innerPos: nat, f: Filler) {
    && (!eof ==> ioError == 0)
    && ioError <= 0
    && (eof && (ioError == 0 || ioError == AVERROR_EOF) ==> !lost && end >= |c.src|)
    && (Filling(f) ==> !eof && !lost)
    && (f.Fill? ==> |f.put| < f.size)
    && (f.Commit? && f.put == [] ==> LastOk(c, innerPos, innerError, f.last))
    && (f.Post? && f.ret == 0 ==> LastOk(c, innerPos, innerError, f.last))
  }

  ghost predicate LastOk(c: Config, innerPos: nat, innerError: int, last: int) {
    && last <= 0 && innerError == last
    && (last == 0 || last == AVERROR_EOF ==> innerPos >= |c.src|)
  }

  /** The mutex, and who may sleep; `idle` says that there is nothing to fill. */
  ghost predicate SleepInv(locked: bool, r: Reader, f: Filler, abort: bool, request: bool, idle: bool) {
    && locked == HoldsMutex(r)
    && (f.Exited? ==> abort)
    && (ReaderAsleep(r) ==> !f.Asleep? && !f.Exited?)
    && (r.ReadCopy? ==> !f.Exited?)
    && (r.Joining? ==> abort && !f.Asleep?)
    && (request && !abort && !r.SeekHead? ==> !f.Asleep?)
    && (f.Asleep? && !r.ReadDone? ==> idle)
  }

  ghost predicate Inv(c: Config, s: State) {
    && c.forwards > 0
    && WindowInv(c, s.ring, s.base, s.innerPos, s.eof, s.lost, Pending(s.filler), Reserved(s.filler))
    && SeekInv(s.logicalPos, s.base, s.ring.readPos, s.rebased, s.abort, s.seekRequest, s.seekCompleted, s.seekRet, s.seekPos,
               Seeking(s.reader), s.reader.ReadCopy?)
    && RequestInv(c, s.reader, s.logicalPos, s.ring.Size(), s.eof, s.abort)
    && EofInv(c, s.eof, s.ioError, s.innerError, s.lost, s.base + |s.ring.data|, s.innerPos, s.filler)
    && SleepInv(s.locked, s.reader, s.filler, s.abort, s.seekRequest, NothingToFill(c, s))
  }

  predicate NothingToFill(c: Config, s: State) {
    s.eof || |s.ring.data| >= c.Capacity()
  }

  lemma InitInv(c: Config)
    requires c.forwards > 0
    ensures Inv(c, Init(c)) && ClientPos(Init(c)) == 0
  {
  }

  // ----- every step keeps it and is a step of the specification -----

  ghost predicate Good(c: Config, before: nat, o: (State, Event)) {
    Inv(c, o.0) && PlainStep(c, before, o.1, ClientPos(o.0), Stopped(o.0))
  }

  /** The end, an error or an interruption was met. */
  predicate Stopped(s: State) {
    s.eof || s.abort
  }

  lemma CallReadOk(c: Config, s: State, size: nat, skip: bool)
    requires Inv(c, s) && s.reader.Idle?
    ensures Good(c, ClientPos(s), (StartRead(s, size, skip), Silent))
  {
    hide WindowInv, EofInv;
    MatchesEmpty(c.src, s.logicalPos);
    hide Matches;
  }

  lemma CallSeekOk(c: Config, s: State, pos: int)
    requires Inv(c, s) && s.reader.Idle?
    ensures s.ring.Valid() && Good(c, ClientPos(s), SeekTo(c, s, pos))
  {
    var delta := pos - s.logicalPos;
    if 0 < delta {
      CallReadOk(c, s, delta, true);
      hide Inv;
      SlowSeekOk(c, s, pos);
    } else if delta < 0 && 0 <= pos && s.logicalPos - s.ring.readPos <= pos {
      BackwardsOk(c, s, -delta);
    } else {
      SlowSeekOk(c, s, pos);
    }
    hide Inv;
  }

  lemma BackwardsOk(c: Config, s: State, n: nat)
    requires Inv(c, s) && s.reader.Idle? && n <= s.ring.readPos && n <= s.logicalPos
    ensures Inv(c, s.(ring := s.ring.(readPos := s.ring.readPos - n), logicalPos := s.logicalPos - n))
  {
    hide EofInv, SleepInv, Matches;
  }

  lemma SlowSeekOk(c: Config, s: State, pos: int)
    requires Inv(c, s) && s.reader.Idle?
    ensures s.ring.Valid()
    ensures pos >= 0 ==> Inv(c, s.(reader := SeekLock(pos)))
  {
    assert s.ring.Valid();
    hide WindowInv, EofInv, SeekInv, Matches;
  }

  lemma LockOk(c: Config, s: State, interrupted: bool)
    requires Inv(c, s)
    requires s.reader.ReadLock? || s.reader.ReadWoken? || s.reader.SeekLock? || s.reader.SeekWoken?
    ensures s.ring.Valid() && Good(c, ClientPos(s), RunReader(c, s, interrupted))
  {
    assert s.ring.Valid();
    hide WindowInv, EofInv, Matches;
  }

  lemma HeadOk(c: Config, s: State, interrupted: bool)
    requires Inv(c, s) && s.reader.ReadHead?
    ensures s.ring.Valid() && Good(c, ClientPos(s), RunReader(c, s, interrupted))
  {
    assert s.ring.Valid();
    hide WindowInv, EofInv, Matches;
    var req := s.reader.req;
    if req.toRead <= 0 || s.abort || interrupted {
      hide SeekInv;
      assert SeekInv(s.logicalPos, s.base, s.ring.readPos, s.rebased, s.abort, s.seekRequest, s.seekCompleted, s.seekRet, s.seekPos, false, false);
    } else {
    }
  }

  lemma DoneOk(c: Config, s: State, interrupted: bool)
    requires Inv(c, s) && s.reader.ReadDone?
    ensures s.ring.Valid() && Good(c, ClientPos(s), RunReader(c, s, interrupted))
  {
    assert s.ring.Valid();
    hide WindowInv, EofInv, Matches;
  }

  lemma SeekHeadOk(c: Config, s: State, interrupted: bool)
    requires Inv(c, s) && s.reader.SeekHead?
    ensures s.ring.Valid() && Good(c, ClientPos(s), RunReader(c, s, interrupted))
  {
    assert s.ring.Valid();
    hide WindowInv, EofInv, Matches;
  }

  lemma CopyNothingOk(c: Config, s: State)
    requires Inv(c, s) && s.reader.ReadCopy? && s.reader.n == 0
    ensures s.ring.Valid() && Good(c, ClientPos(s), (Copy(c, s, s.reader.req, 0), Silent))
  {
    assert s.ring.Valid();
    hide WindowInv, Matches;
  }

  lemma CopyOk(c: Config, s: State)
    requires Inv(c, s) && s.reader.ReadCopy? && s.reader.n > 0
    ensures s.ring.Valid() && Good(c, ClientPos(s), (Copy(c, s, s.reader.req, s.reader.n), Silent))
  {
    var req, n := s.reader.req, s.reader.n;
    CopyWindow(c, s, n);
    CopyRequest(c, s, req, n);
    var s' := Copy(c, s, req, n);
    CopyShape(c, s, req, n);
    hide WindowInv, RequestInv, EofInv, Matches, Copy;
    assert SeekInv(s'.logicalPos, s'.base, s'.ring.readPos, s'.rebased, s'.abort, s'.seekRequest, s'.seekCompleted, s'.seekRet, s'.seekPos,
                   Seeking(s'.reader), s'.reader.ReadCopy?);
    assert SleepInv(s'.locked, s'.reader, s'.filler, s'.abort, s'.seekRequest, NothingToFill(c, s'));
    hide SeekInv, SleepInv;
    assert PlainStep(c, ClientPos(s), Silent, ClientPos(s'), Stopped(s'));
    hide PlainStep;
  }

  /** What a copy changes. */
  lemma CopyShape(c: Config, s: State, req: Request, n: nat)
    requires Inv(c, s) && s.reader == ReadCopy(req, n) && n > 0
    ensures s.ring.Valid() && n <= s.ring.Size()
    ensures var s' := Copy(c, s, req, n);
      var ring' := s.ring.AfterRead(n, c.backwards);
      && s' == s.(ring := ring', logicalPos := s.logicalPos + n, base := s.base + (|s.ring.data| - |ring'.data|),
                  reader := s'.reader, locked := s'.reader.ReadDone?,
                  filler := if s'.reader.ReadDone? then s.filler else WakeFiller(s.filler))
      && (s'.reader.ReadDone? || s'.reader.ReadSleep?)
  {
    CopyFits(c, s, req, n);
    hide Inv;
    var toRead := req.toRead - n;
    var bytes := s.ring.data[s.ring.readPos..s.ring.readPos + n];
    var req' := req.(toRead := toRead, out := req.out + bytes, ret := req.size - toRead);
    var ring' := s.ring.AfterRead(n, c.backwards);
    var s1 := s.(ring := ring', logicalPos := s.logicalPos + n, base := s.base + (|s.ring.data| - |ring'.data|));
    if toRead <= 0 || !req.skip {
      assert Copy(c, s, req, n) == s1.(reader := ReadDone(req'));
    } else {
      assert Copy(c, s, req, n) == s1.(reader := ReadSleep(req'), locked := false, filler := WakeFiller(s.filler));
    }
    hide Copy, WakeFiller;
  }

  lemma CopyFits(c: Config, s: State, req: Request, n: nat)
    requires Inv(c, s) && s.reader == ReadCopy(req, n) && n > 0
    ensures s.ring.Valid() && n <= s.ring.Size() && n <= req.toRead && s.locked
  {
    hide EofInv, SeekInv, Matches;
  }

  lemma CopyWindow(c: Config, s: State, n: nat)
    requires Inv(c, s) && n <= s.ring.Size()
    ensures var ring' := s.ring.AfterRead(n, c.backwards);
      var base' := s.base + (|s.ring.data| - |ring'.data|);
      && WindowInv(c, ring', base', s.innerPos, s.eof, s.lost, Pending(s.filler), Reserved(s.filler))
      && s.base + s.ring.readPos + n == base' + ring'.readPos
      && (s.ring.Size() == n ==> ring'.Size() == 0)
  {
    hide SeekInv, RequestInv, EofInv, SleepInv, Matches;
    WindowRead(c, s.ring, s.base, s.innerPos, s.eof, s.lost, Pending(s.filler), Reserved(s.filler), n);
  }

  lemma WindowRead(c: Config, ring: View, base: nat, innerPos: nat, eof: bool, lost: bool,
                   pending: seq<byte>, reserved: nat, n: nat)
    requires WindowInv(c, ring, base, innerPos, eof, lost, pending, reserved) && n <= ring.Size()
    ensures var ring' := ring.AfterRead(n, c.backwards);
      var base' := base + (|ring.data| - |ring'.data|);
      && WindowInv(c, ring', base', innerPos, eof, lost, pending, reserved)
      && base + ring.readPos + n == base' + ring'.readPos
      && (ring.Size() == n ==> ring'.Size() == 0)
  {
    hide Matches;
    var ring' := ring.AfterRead(n, c.backwards);
    var drop := |ring.data| - |ring'.data|;
    MatchesSlice(c.src, base, ring.data, drop, |ring.data|);
    assert ring'.data == ring.data[drop..|ring.data|];
    assert base + drop + |ring'.data| == base + |ring.data|;
  }

  lemma CopyRequest(c: Config, s: State, req: Request, n: nat)
    requires Inv(c, s) && s.reader == ReadCopy(req, n) && n > 0
    ensures s.ring.Valid() && n <= s.ring.Size()
    ensures var s' := Copy(c, s, req, n);
      RequestInv(c, s'.reader, s'.logicalPos, s'.ring.Size(), s.eof, s.abort) && Reading(s'.reader) && s'.reader.req.start == req.start
  {
    hide EofInv, SleepInv, Matches;
    var bytes := s.ring.data[s.ring.readPos..s.ring.readPos + n];
    MatchesSlice(c.src, s.base, s.ring.data, s.ring.readPos, s.ring.readPos + n);
    MatchesConcat(c.src, req.start, req.out, bytes);
  }

  lemma TopExitOk(c: Config, s: State, interrupted: bool, reply: Reply)
    requires Inv(c, s) && s.filler.Top? && !s.locked && (s.abort || interrupted)
    ensures Good(c, ClientPos(s), (FillerTop(c, s, interrupted, reply), Silent))
  {
    hide Matches;
  }

  lemma TopSeekOk(c: Config, s: State, reply: Reply)
    requires Inv(c, s) && s.filler.Top? && !s.locked && !s.abort && s.seekRequest && HonestReply(reply)
    ensures Good(c, ClientPos(s), (FillerTop(c, s, false, reply), Silent))
  {
    MatchesEmpty(c.src, s.seekPos);
    MatchesEmpty(c.src, s.logicalPos);
    hide Matches;
  }

  lemma TopFillOk(c: Config, s: State, reply: Reply)
    requires Inv(c, s) && s.filler.Top? && !s.locked && !s.abort && !s.seekRequest
    ensures Good(c, ClientPos(s), (FillerTop(c, s, false, reply), Silent))
  {
    hide Matches;
  }

  lemma FillOk(c: Config, s: State, reply: Reply)
    requires Inv(c, s) && s.filler.Fill? && HonestReply(reply)
    ensures Good(c, ClientPos(s), (FillerRead(c, s, s.filler.size, s.filler.put, reply), Silent))
  {
    if reply.Deliver? && s.innerPos < |c.src| {
      FillDataOk(c, s, reply);
      hide Inv, PlainStep;
    } else {
      hide Matches, SeekInv, RequestInv;
    }
  }

  lemma FillDataOk(c: Config, s: State, reply: Reply)
    requires Inv(c, s) && s.filler.Fill? && reply.Deliver? && s.innerPos < |c.src|
    ensures Good(c, ClientPos(s), (FillerRead(c, s, s.filler.size, s.filler.put, reply), Silent))
  {
    var Fill(size, put) := s.filler;
    var len := Min(Min(Max(reply.n, 1), size - |put|), |c.src| - s.innerPos);
    var bytes := c.src[s.innerPos..s.innerPos + len];
    MatchesConcat(c.src, s.base + |s.ring.data|, put, bytes);
    var put' := put + bytes;
    assert |put| < size && 0 < len && |put'| == |put| + len <= size;
    var filler := if |put'| >= size then Commit(put', len) else Fill(size, put');
    var s' := s.(innerError := 0, innerPos := s.innerPos + len, filler := filler);
    assert FillerRead(c, s, size, put, reply) == s';
    hide Matches, SeekInv, RequestInv, FillerRead, HonestReply;
    assert WindowInv(c, s'.ring, s'.base, s'.innerPos, s'.eof, s'.lost, put', size);
    hide WindowInv;
    assert EofInv(c, s'.eof, s'.ioError, s'.innerError, s'.lost, s'.base + |s'.ring.data|, s'.innerPos, filler);
    hide EofInv, LastOk;
    assert PlainStep(c, ClientPos(s), Silent, ClientPos(s'), Stopped(s'));
    hide PlainStep;
  }

  lemma CommitOk(c: Config, s: State)
    requires Inv(c, s) && s.filler.Commit?
    ensures forall b, r :: Good(c, ClientPos(s), (RunFiller(c, s, b, r), Silent))
  {
    MatchesConcat(c.src, s.base, s.ring.data, s.filler.put);
    MatchesEmpty(c.src, s.base + |s.ring.data| + |s.filler.put|);
    hide Matches;
  }

  lemma PostOk(c: Config, s: State)
    requires Inv(c, s) && s.filler.Post? && !s.locked
    ensures forall b, r :: Good(c, ClientPos(s), (RunFiller(c, s, b, r), Silent))
  {
    hide Matches;
  }

  lemma MiscOk(c: Config, s: State, step: Step)
    requires Inv(c, s) && Enabled(s, step)
    requires step.Close? || step.ReaderSpurious? || step.FillerSpurious? || step.InnerInterrupt?
    ensures s.ring.Valid() && Good(c, ClientPos(s), Next(c, s, step))
  {
    assert s.ring.Valid();
    hide WindowInv, Matches;
  }

  /** Every step of either thread, in every interleaving, keeps the invariant and
      is a step of the plain source. */
  lemma StepOk(c: Config, s: State, step: Step)
    requires Inv(c, s) && Enabled(s, step)
    ensures s.ring.Valid()
    ensures var (s', ev) := Next(c, s, step);
      Inv(c, s') && PlainStep(c, ClientPos(s), ev, ClientPos(s'), Stopped(s'))
  {
    assert s.ring.Valid();
    match step
    case CallRead(size) => CallReadOk(c, s, size, false);
    case CallSeek(pos, whence) =>
      if whence.Cur? { CallSeekOk(c, s, pos + s.logicalPos); } else { CallSeekOk(c, s, pos); }
    case ReaderRun(interrupted) => ReaderOk(c, s, interrupted);
    case FillerRun(interrupted, reply) => FillerOk(c, s, interrupted, reply);
    case _ => MiscOk(c, s, step);
  }

  lemma ReaderOk(c: Config, s: State, interrupted: bool)
    requires Inv(c, s)
    ensures s.ring.Valid() && Good(c, ClientPos(s), RunReader(c, s, interrupted))
  {
    assert s.ring.Valid();
    match s.reader {
      case ReadLock(_) => LockOk(c, s, interrupted);
      case ReadWoken(_) => LockOk(c, s, interrupted);
      case SeekLock(_) => LockOk(c, s, interrupted);
      case SeekWoken => LockOk(c, s, interrupted);
      case ReadHead(_) => HeadOk(c, s, interrupted);
      case ReadCopy(_, n) =>
        if n > 0 { CopyOk(c, s); } else { CopyNothingOk(c, s); }
      case ReadDone(_) => DoneOk(c, s, interrupted);
      case SeekHead => SeekHeadOk(c, s, interrupted);
      case _ =>
    }
    hide Inv;
  }

  lemma FillerOk(c: Config, s: State, interrupted: bool, reply: Reply)
    requires Inv(c, s) && HonestReply(reply)
    ensures Good(c, ClientPos(s), (RunFiller(c, s, interrupted, reply), Silent))
  {
    hide Inv, FillerTop, FillerRead;
    match s.filler {
      case Top =>
        if !s.locked {
          if s.abort || interrupted { TopExitOk(c, s, interrupted, reply); }
          else if s.seekRequest { TopSeekOk(c, s, reply); }
          else { TopFillOk(c, s, reply); }
        }
      case Fill(_, _) => FillOk(c, s, reply);
      case Commit(_, _) => CommitOk(c, s);
      case Post(_, _) =>
        if !s.locked { PostOk(c, s); }
      case _ =>
    }
  }

  // ----- runs -----

  /** A run: the states it passes through, the steps between them, and what the
      caller sees of each. */
  ghost predicate IsRun(c: Config, states: seq<State>, steps: seq<Step>, events: seq<Event>) {
    && |states| == |steps| + 1 && |events| == |steps| && states[0] == Init(c)
    && forall k :: 0 <= k < |steps| ==> StepAt(c, states, steps, events, k)
  }

  ghost predicate StepAt(c: Config, states: seq<State>, steps: seq<Step>, events: seq<Event>, k: nat)
    requires k < |steps| == |events| && |states| == |steps| + 1
  {
    states[k].ring.Valid() && Enabled(states[k], steps[k]) && Next(c, states[k], steps[k]) == (states[k + 1], events[k])
  }

  lemma {:induction false} RunInv(c: Config, states: seq<State>, steps: seq<Step>, events: seq<Event>, k: nat)
    requires c.forwards > 0 && IsRun(c, states, steps, events) && k < |states|
    ensures Inv(c, states[k])
    decreases k
  {
    if k == 0 {
      InitInv(c);
    } else {
      RunInv(c, states, steps, events, k - 1);
      assert StepAt(c, states, steps, events, k - 1);
      StepOk(c, states[k - 1], steps[k - 1]);
    }
  }

  /** Refinement: what the caller sees in a run is what a plain source with a
      position would have done. Every delivered byte is the byte of the source
      at the caller's position, every non-negative result of a seek is the
      position of the next byte, and an end is reported only at the end. */
  lemma RunRefinesPlainSource(c: Config, states: seq<State>, steps: seq<Step>, events: seq<Event>, k: nat)
    requires c.forwards > 0 && IsRun(c, states, steps, events) && k < |steps|
    ensures ClientPos(states[0]) == 0
    ensures PlainStep(c, ClientPos(states[k]), events[k], ClientPos(states[k + 1]), Stopped(states[k + 1]))
  {
    InitInv(c);
    RunInv(c, states, steps, events, k);
    assert StepAt(c, states, steps, events, k);
    StepOk(c, states[k], steps[k]);
    hide Inv;
  }

  /** Neither thread waits for a wake-up that nobody will send. In every state of
      every run: the two threads are not both asleep; while the reader sleeps on
      an empty ring before the end, there is room for `forwards` bytes and the
      filler will use it; a pending seek finds the filler running, whatever the
      reader does, from the moment the mutex is released; the filler
      sleeps only when there is nothing to fill; async_close does not wait for
      a sleeping filler. */
  lemma NoLostWakeUp(c: Config, states: seq<State>, steps: seq<Step>, events: seq<Event>, k: nat)
    requires c.forwards > 0 && IsRun(c, states, steps, events) && k < |states|
    ensures var s := states[k];
      && !(ReaderAsleep(s.reader) && (s.filler.Asleep? || s.filler.Exited?))
      && (s.reader.ReadSleep? && s.ring.Size() == 0 ==> c.Capacity() - |s.ring.data| >= c.forwards)
      && (s.reader.ReadSleep? && s.ring.Size() == 0 && !s.eof ==> s.filler.Top? || Filling(s.filler))
      && (s.seekRequest && !s.abort && !s.reader.SeekHead? ==> !s.filler.Asleep? && !s.filler.Exited?)
      && (s.filler.Asleep? && !s.reader.ReadDone? ==> s.eof || |s.ring.data| >= c.Capacity())
      && (s.reader.Joining? ==> !s.filler.Asleep? && s.abort)
  {
    RunInv(c, states, steps, events, k);
  }

  /** The filler that a blocked reader waits for does not go back to sleep: its
      next locked section fills, serves the seek, or wakes the reader. */
  lemma FillerServesSleepingReader(c: Config, s: State, interrupted: bool, reply: Reply)
    requires Inv(c, s) && ReaderAsleep(s.reader) && s.filler.Top? && !s.locked
    ensures var s' := RunFiller(c, s, interrupted, reply);
      && (s'.filler.Fill? || !ReaderAsleep(s'.reader))
      && (s.reader.SeekSleep? && !s.abort && !interrupted && s.seekRequest ==> s'.seekCompleted && s'.reader.SeekWoken?)
      && (s.reader.ReadSleep? && s.ring.Size() == 0 && !s.eof && !s.abort && !interrupted && !s.seekRequest ==>
            s'.filler.Fill?)
  {
    hide RequestInv, EofInv, SeekInv, Matches;
  }
}
