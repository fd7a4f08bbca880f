/** Where the prefetching cache falls short of a plain source, and exactly when. */
module PrefetchLimits {
  import opened Common
  import opened CacheIndex
  import opened CacheStorage
  import opened Source
  import opened PrefetchProtocol
  import opened PrefetchProof
  import opened PrefetchRuns

  // ----- ends, and a filler that left -----

  /** The end was met because the inner source failed. */
  predicate BrokenOff(why: Cause) {
    why.SeekFailed? || why.ReadFailed?
  }

  /** A read that reports an end, or delivers less than it was asked for, has one
      of the reasons. Unless opening the inner source late changed the claimed
      size, it ends before that size exactly when the inner source failed or the
      read was interrupted, the end of the source itself aside. */
  lemma EndsEarlyExactly(c: Config, states: seq<State>, steps: seq<Step>, events: seq<Event>, k: nat)
    requires IsRun(c, states, steps, events) && k < |steps| && events[k].DidRead? && !states[k + 1].resized
    requires events[k].ret == AVERROR_EOF || 0 <= events[k].ret < events[k].size
    ensures var s', why := states[k + 1], events[k].why;
      && why.Some?
      && (if why.value.EndReached? then ClientPos(s') >= |c.Src()|
          else ClientPos(s') < s'.logicalSize <==> BrokenOff(why.value) || why.value.Interrupted?)
      && (why.value.Interrupted? ==> s'.abort)
      && (BrokenOff(why.value) && events[k].ret == AVERROR_EOF ==> events[k].out == [])
  {
    RunRefinesPlainSource(c, states, steps, events, k);
    hide IsRun, ClientPos;
  }

  /** A seek that the filler has served and whose caller has not returned yet. */
  predicate Served(s: State) {
    Seeking(s.reader) && s.seek.completed
  }

  ghost predicate StaysAway(s: State, o: (State, Event)) {
    && o.0.filler.Exited? && !Served(o.0)
    && (o.1.DidSeek? ==> o.1.target < 0 || (o.1.ret == AVERROR_EXIT && o.0.abort))
  }

  lemma CopyStaysAway(c: Config, s: State, req: Request, n: nat)
    requires s.filler.Exited?
    ensures StaysAway(s, (ReadCached(c, s, req, n), Silent))
  {
    var e := Covering(Root(c, s.store), s.readLogical);
    if e.None? {
      assert ReadCached(c, s, req, n) == s.(reader := ReadEof(req));
    } else {
      var (bytes, at) := FileRead(s.store, e.value, s.readLogical, req.toRead, n);
      if 0 < |bytes| <= req.toRead {
        TakenStaysAway(s, req, bytes, at);
        assert ReadCached(c, s, req, n) == Taken(s, req, bytes, at);
      } else {
        assert ReadCached(c, s, req, n) == s.(store := s.store.(fdPos := at), reader := ReadEof(req));
      }
    }
    hide ReadCached, Taken, Covering, Root, FileRead;
  }

  lemma TakenStaysAway(s: State, req: Request, bytes: seq<byte>, at: nat)
    requires s.filler.Exited? && |bytes| <= req.toRead
    ensures StaysAway(s, (Taken(s, req, bytes, at), Silent))
  {
  }

  lemma SleepStaysAway(s: State, r: Reader)
    requires s.filler.Exited? && !Seeking(r)
    ensures StaysAway(s, (Sleep(s, r), Silent))
  {
  }

  lemma SeekHeadStaysAway(c: Config, s: State, interrupted: bool, n: nat)
    requires s.filler.Exited? && s.reader.SeekHead? && !s.seek.completed
    ensures StaysAway(s, RunReader(c, s, interrupted, n))
  {
    if s.abort || interrupted {
      assert RunReader(c, s, interrupted, n) ==
        (s.(abort := true, reader := Idle, locked := false), DidSeek(s.seek.target, AVERROR_EXIT));
    } else {
      assert RunReader(c, s, interrupted, n) == (Sleep(s, SeekSleep(s.reader.start)), Silent);
    }
    hide RunReader;
  }

  lemma DoneStaysAway(c: Config, s: State, interrupted: bool, n: nat)
    requires s.filler.Exited? && s.reader.ReadDone?
    ensures StaysAway(s, RunReader(c, s, interrupted, n))
  {
    var req := s.reader.req;
    assert RunReader(c, s, interrupted, n) ==
      (s.(reader := Idle, locked := false, filler := s.filler), DidRead(req.size, req.ret, req.out, req.why));
    hide RunReader, FarEnough;
  }

  lemma EofStaysAway(c: Config, s: State, interrupted: bool, n: nat)
    requires s.filler.Exited? && s.reader.ReadEof?
    ensures StaysAway(s, RunReader(c, s, interrupted, n))
  {
    var req := s.reader.req;
    if s.eof {
      var ret := if req.ret > 0 then req.ret else if s.ioError != 0 then s.ioError else AVERROR_EOF;
      assert RunReader(c, s, interrupted, n) == (s.(reader := ReadDone(req.(ret := ret, why := Some(EndCause(s))))), Silent);
    } else {
      assert RunReader(c, s, interrupted, n) == (Sleep(s, ReadSleep(req)), Silent);
      SleepStaysAway(s, ReadSleep(req));
    }
    hide RunReader, Sleep;
  }

  lemma ReaderStaysAway(c: Config, s: State, interrupted: bool, n: nat)
    requires s.filler.Exited? && !Served(s)
    ensures StaysAway(s, RunReader(c, s, interrupted, n))
  {
    match s.reader {
      case ReadFile(req) =>
        assert RunReader(c, s, interrupted, n) == (ReadCached(c, s, req, n), Silent);
        CopyStaysAway(c, s, req, n);
      case ReadDone(_) => DoneStaysAway(c, s, interrupted, n);
      case ReadEof(_) => EofStaysAway(c, s, interrupted, n);
      case SeekHead(_) => SeekHeadStaysAway(c, s, interrupted, n);
      case ReadHead(req) => HeadStaysAway(c, s, interrupted, n);
      case _ => LockStaysAway(c, s, interrupted, n);
    }
    hide *;
  }

  lemma HeadStaysAway(c: Config, s: State, interrupted: bool, n: nat)
    requires s.filler.Exited? && s.reader.ReadHead?
    ensures StaysAway(s, RunReader(c, s, interrupted, n))
  {
    var req := s.reader.req;
    if req.toRead <= 0 {
      assert RunReader(c, s, interrupted, n) == (s.(reader := ReadDone(req)), Silent);
    } else if s.abort || interrupted {
      assert RunReader(c, s, interrupted, n) == (s.(abort := true, reader := ReadDone(req.(ret := AVERROR_EXIT))), Silent);
    } else {
      assert RunReader(c, s, interrupted, n) == (s.(reader := ReadFile(req)), Silent);
    }
    hide RunReader;
  }

  lemma LockStaysAway(c: Config, s: State, interrupted: bool, n: nat)
    requires s.filler.Exited? && !Served(s)
    requires !s.reader.ReadFile? && !s.reader.ReadDone? && !s.reader.ReadEof? && !s.reader.SeekHead? && !s.reader.ReadHead?
    ensures StaysAway(s, RunReader(c, s, interrupted, n))
  {
    if s.locked || s.reader.Idle? || s.reader.ReadSleep? || s.reader.SeekSleep? || s.reader.CloseSleep? || s.reader.Closed? {
      assert RunReader(c, s, interrupted, n) == (s, Silent);
    } else {
      match s.reader {
        case ReadLock(req) => assert RunReader(c, s, interrupted, n) == (s.(reader := ReadHead(req), locked := true), Silent);
        case ReadWoken(req) => assert RunReader(c, s, interrupted, n) == (s.(reader := ReadHead(req), locked := true), Silent);
        case SeekWoken(start) => assert RunReader(c, s, interrupted, n) == (s.(reader := SeekHead(start), locked := true), Silent);
        case SeekLock(target) =>
          assert RunReader(c, s, interrupted, n) ==
            (s.(seek := s.seek.(request := true, target := target, completed := false), reader := SeekHead(s.readLogical),
                locked := true), Silent);
      }
    }
    hide RunReader;
  }

  /** A filler that left stays away, and nobody else serves a seek. */
  lemma ExitedStays(c: Config, s: State, step: Step)
    requires s.filler.Exited? && !Served(s) && Enabled(s, step)
    ensures StaysAway(s, Next(c, s, step))
  {
    match step {
      case ReaderRun(interrupted, n) => ReaderStaysAway(c, s, interrupted, n);
      case _ =>
    }
    hide RunReader, SeekResult;
  }

  /** Once the filler left, which without an interruption it does only over an
      error code of the inner source, it never comes back. A seek that it had not
      served yet, and every later one, returns only when it is interrupted. */
  lemma {:induction false} LeftForEver(c: Config, states: seq<State>, steps: seq<Step>, events: seq<Event>, k: nat, j: nat)
    requires IsRun(c, states, steps, events) && k <= j < |states|
    requires states[k].filler.Exited? && !Served(states[k])
    ensures states[j].filler.Exited? && !Served(states[j]) && (states[j].abort || states[j].quit)
    ensures j < |steps| && events[j].DidSeek? && events[j].target >= 0 ==> events[j].ret == AVERROR_EXIT && states[j + 1].abort
    decreases j
  {
    hide Inv, Next, Enabled, Desync, StoreInv, Served;
    RunInv(c, states, steps, events, j);
    ExitedReason(c, states[j]);
    if j > k {
      LeftForEver(c, states, steps, events, k, j - 1);
      assert StepAt(c, states, steps, events, j - 1);
      ExitedStays(c, states[j - 1], steps[j - 1]);
    }
    if j < |steps| {
      assert StepAt(c, states, steps, events, j);
      ExitedStays(c, states[j], steps[j]);
    }
  }

  lemma ExitedReason(c: Config, s: State)
    requires Inv(c, s)
    ensures s.filler.Exited? ==> s.abort || s.quit
  {
    hide StoreInv, Window, FreeInv, InnerInv, EofInv, Root, SeekInv, RequestInv;
  }

  // ----- what moves unseen, and what is fetched from elsewhere -----

  /** The caller's position changes without an event exactly in a late hand-over.
      It is then the target of a seek that was interrupted. */
  lemma MovesUnseenExactly(c: Config, states: seq<State>, steps: seq<Step>, events: seq<Event>, k: nat)
    requires IsRun(c, states, steps, events) && k < |steps| && events[k] == Silent
    ensures var s := states[k];
      && (ClientPos(states[k + 1]) != ClientPos(s) <==> Late(s, steps[k]) && s.seek.target != ClientPos(s))
      && (Late(s, steps[k]) ==> s.seek.request && states[k + 1].abort && ClientPos(states[k + 1]) == s.seek.target)
  {
    RunInv(c, states, steps, events, k);
    assert StepAt(c, states, steps, events, k);
    StepOk(c, states[k], steps[k]);
    hide Inv, Next, Enabled, Desync, StoreInv;
  }

  /** When the recorded position of the inner source is wrong: a failing seek to the
      front makes it so, no other failing seek mends it, and one that works does. */
  lemma AstrayExactly(c: Config, s: State, reply: Reply)
    requires Inv(c, s) && HonestReply(reply) && s.filler.SeekInner? && !s.asyncOpen
    ensures var s' := FillerSeek(s, s.filler.toCopy, reply);
      Astray(s') <==> reply.Fail? && if s.fileLogical == s.fileLogicalEnd then s.innerPos > 0 else Astray(s)
  {
    hide Inv, FillerSeek;
    InnerEnd(c, s);
    SeekMoves(s, s.filler.toCopy, reply);
  }

  /** The step that runs do not take is exactly a fetch with a wrong recorded
      position, which is then that of the front. */
  lemma DesyncExactly(c: Config, s: State, step: Step)
    requires Inv(c, s) && step.FillerRun? && s.filler.Fetch? && !s.asyncOpen && step.reply.Deliver?
    ensures Desync(s, step) <==> Astray(s)
    ensures Desync(s, step) ==> s.fileLogical == 0 == s.fileInner && s.innerPos > 0
  {
    hide StoreInv, Window, FreeInv, EofInv, Root, SeekInv, RequestInv, SleepInv, Matches;
  }

  lemma SeekMoves(s: State, toCopy: nat, reply: Reply)
    ensures var s' := FillerSeek(s, toCopy, reply);
      && s'.innerPos == (if reply.Deliver? then s.fileLogical else s.innerPos)
      && s'.fileInner == (if reply.Deliver? then s.fileLogical
                          else if s.fileLogicalEnd == s.fileLogical then s.fileLogicalEnd else s.fileInner)
  {
  }

  /** After that, a read for position 0 takes the bytes from where the inner
      source really stands; they are right only if they happen to be equal. */
  lemma DesyncFetchesElsewhere(c: Config, s: State, n: nat)
    requires s.filler.Fetch? && !s.asyncOpen && s.filler.toCopy > 0
    requires s.fileLogical == 0 == s.fileInner && 0 < s.innerPos < |c.Src()|
    ensures var s' := FillerFetch(c, s, s.filler.toCopy, Deliver(n));
      && s'.filler.Add? && s'.fileLogical == 0
      && s'.filler.buf <= c.Src()[s.innerPos..] && s'.filler.buf != []
      && (c.Src()[0] != c.Src()[s.innerPos] ==> !Matches(c.Src(), 0, s'.filler.buf))
  {
    var len := Min(Min(Max(n, 1), s.filler.toCopy), |c.Src()| - s.innerPos);
    var buf := c.Src()[s.innerPos..s.innerPos + len];
    assert buf[0] == c.Src()[s.innerPos];
    assert buf == c.Src()[s.innerPos..][..len];
  }
}
