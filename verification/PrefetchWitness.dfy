/** Concrete runs of the prefetching cache in which it falls short of a plain
    source: the conditions under which this happens are in PrefetchLimits. */
module PrefetchWitness {
  import opened Common
  import opened AvlTree
  import opened CacheIndex
  import opened CacheStorage
  import opened Source
  import opened PrefetchProtocol
  import opened PrefetchProof
  import opened PrefetchRuns

  const EMPTY_STORE := Store([], 0, 0, 0, map[0 := EMPTY_TREE], 0)

  function Configured(src: seq<byte>): Config {
    Config(map[0 := src], 0, 1, 10, false, 0)
  }

  /** An undisturbed step of the filler with a reply of the inner source. */
  function Fills(reply: Reply): Step {
    FillerRun(false, reply, Works(0), Works(0))
  }

  lemma EmptyStoreOk(src: seq<byte>)
    ensures StoreInv(Configured(src), EMPTY_STORE) && Root(Configured(src), EMPTY_STORE) == Nil
  {
    CoherentEmpty(Configured(src).sources, [], 0);
    hide Coherent;
  }

  lemma NothingCached(c: Config, s: State)
    requires Root(c, s.store) == Nil
    ensures SkipTo(Root(c, s.store), s.fileLogical) == s.fileLogical
    ensures SkipRoom(Root(c, s.store), s.fileLogical) == FETCH_CHUNK
  {
  }

  /** The steps lead from one state to the other. */
  ghost predicate Leads(c: Config, s: State, steps: seq<Step>, s': State)
    decreases |steps|
  {
    if steps == [] then s == s'
    else Enabled(s, steps[0]) && Leads(c, Next(c, s, steps[0]).0, steps[1..], s')
  }

  lemma {:induction false} LeadsOn(c: Config, s: State, a: seq<Step>, s': State, b: seq<Step>, s'': State)
    requires Leads(c, s, a, s') && Leads(c, s', b, s'')
    ensures Leads(c, s, a + b, s'')
    decreases |a|
  {
    hide Next, Enabled;
    if a == [] {
      assert a + b == b;
    } else {
      assert (a + b)[1..] == a[1..] + b;
      LeadsOn(c, Next(c, s, a[0]).0, a[1..], s', b, s'');
    }
  }

  lemma Leads1(c: Config, s: State, step: Step, s': State)
    requires Enabled(s, step) && Next(c, s, step).0 == s'
    ensures Leads(c, s, [step], s')
  {
    hide Next, Enabled;
    assert [step][1..] == [];
  }

  const RUN := ReaderRun(false, 0)
  const GO := FillerRun(false, Deliver(0), Works(0), Works(0))

  /** Nobody does anything, and the filler is at the start of its loop. */
  predicate Quiet(s: State) {
    s.reader.Idle? && s.filler.Top? && !s.locked && !s.abort && !s.seek.request && !s.cacheClosed
  }

  function Sought(s: State, target: nat): State {
    s.(readLogical := target, fileLogical := target, eof := false, ioError := 0,
       seek := Seek(false, target, true, target), filler := Check)
  }

  function SeekSteps(target: nat): seq<Step> {
    [CallSeek(target, Set), RUN, RUN] + ([GO, GO, GO] + [RUN, RUN])
  }

  /** An undisturbed seek. */
  lemma SeekRound(c: Config, s: State, target: nat)
    requires Quiet(s)
    ensures Leads(c, s, SeekSteps(target), Sought(s, target))
  {
    hide Leads, Next, Enabled;
    var s1 := s.(reader := SeekSleep(s.readLogical), seek := Seek(true, target, false, s.seek.ret));
    SeekRoundFront(c, s, target, s1);
    SeekRoundBack(c, s1, target, s.readLogical);
    LeadsOn(c, s, [CallSeek(target, Set), RUN, RUN], s1, [GO, GO, GO] + [RUN, RUN], Sought(s, target));
  }

  lemma Leads2(c: Config, s: State, a: Step, b: Step, s': State)
    requires Enabled(s, a)
    requires var s1 := Next(c, s, a).0; Enabled(s1, b) && Next(c, s1, b).0 == s'
    ensures Leads(c, s, [a, b], s')
  {
    hide Next, Enabled;
    Leads1(c, Next(c, s, a).0, b, s');
    assert [a, b][1..] == [b];
  }

  lemma Leads3(c: Config, s: State, a: Step, b: Step, d: Step, s': State)
    requires Enabled(s, a)
    requires var s1 := Next(c, s, a).0; Enabled(s1, b) && var s2 := Next(c, s1, b).0; Enabled(s2, d) && Next(c, s2, d).0 == s'
    ensures Leads(c, s, [a, b, d], s')
  {
    hide Next, Enabled;
    var s1 := Next(c, s, a).0;
    var s2 := Next(c, s1, b).0;
    Leads1(c, s2, d, s');
    assert [b, d][1..] == [d];
    assert Leads(c, s1, [b, d], s');
    assert [a, b, d][1..] == [b, d];
  }

  lemma SeekRoundFront(c: Config, s: State, target: nat, s2: State)
    requires Quiet(s)
    requires s2 == s.(reader := SeekSleep(s.readLogical), seek := Seek(true, target, false, s.seek.ret))
    ensures Leads(c, s, [CallSeek(target, Set), RUN, RUN], s2)
  {
    hide Leads;
    Leads3(c, s, CallSeek(target, Set), RUN, RUN, s2);
  }

  lemma SeekRoundBack(c: Config, s: State, target: nat, start: nat)
    requires s.reader == SeekSleep(start) && s.filler.Top? && !s.locked && !s.abort && !s.cacheClosed
    requires s.seek.request && s.seek.target == target && !s.seek.completed
    ensures Leads(c, s, [GO, GO, GO] + [RUN, RUN], Sought(s.(reader := Idle), target))
  {
    hide Leads;
    var s1 := Sought(s.(reader := SeekWoken(start)), target);
    Leads3(c, s, GO, GO, GO, s1);
    Leads2(c, s1, RUN, RUN, Sought(s.(reader := Idle), target));
    LeadsOn(c, s, [GO, GO, GO], s1, [RUN, RUN], Sought(s.(reader := Idle), target));
  }

  /** The filler decides to sleep, is closed before it does, and is never woken:
      it has seen the end of an empty source when ijkio_cache_close comes. */
  lemma CloseMayHang() returns (states: seq<State>, steps: seq<Step>, events: seq<Event>)
    ensures IsRun(Configured([]), states, steps, events)
    ensures var s := states[|steps|];
      s.reader.CloseSleep? && s.filler.Asleep? && s.missed && s.abort
  {
    hide IsStep, SkipTo, SkipRoom, Root, StoreInv;
    var c := Configured([]);
    EmptyStoreOk([]);
    var s0 := Init(EMPTY_STORE, 0, false);
    var s1 := s0.(filler := Poll);
    var s2 := s0.(filler := Check);
    var s3 := s0.(filler := Skip);
    var s4 := s0.(eof := true, cause := SizeReached);
    var s5 := s4.(filler := Poll);
    var s6 := s4.(filler := Check);
    var s7 := s4.(filler := GoSleep);
    var s8 := s7.(abort := true, reader := CloseSleep, missed := true);
    var s9 := s8.(filler := Asleep);
    EmptySourceEnds(c, s0, s1, s2, s3, s4);
    CloseComes(c, s4, s5, s6, s7, s8, s9);
    states, steps := [s0, s1, s2, s3, s4, s5, s6, s7, s8, s9], [GO, GO, GO, GO, GO, GO, GO, Close, GO];
    events := [Silent, Silent, Silent, Silent, Silent, Silent, Silent, Silent, Silent];
  }

  lemma CloseComes(c: Config, s4: State, s5: State, s6: State, s7: State, s8: State, s9: State)
    requires s4.filler.Top? && s4.eof && s4.reader.Idle? && !s4.locked && !s4.abort && !s4.seek.request && !s4.cacheClosed
    requires s5 == s4.(filler := Poll) && s6 == s4.(filler := Check) && s7 == s4.(filler := GoSleep)
    requires s8 == s7.(abort := true, reader := CloseSleep, missed := true) && s9 == s8.(filler := Asleep)
    ensures IsStep(c, s4, GO, s5, Silent) && IsStep(c, s5, GO, s6, Silent) && IsStep(c, s6, GO, s7, Silent)
    ensures IsStep(c, s7, Close, s8, Silent) && IsStep(c, s8, GO, s9, Silent)
  {
  }

  lemma EmptySourceEnds(c: Config, s0: State, s1: State, s2: State, s3: State, s4: State)
    requires c == Configured([]) && s0 == Init(EMPTY_STORE, 0, false) && s1 == s0.(filler := Poll) && s2 == s0.(filler := Check)
    requires s3 == s0.(filler := Skip) && s4 == s0.(eof := true, cause := SizeReached)
    ensures IsStep(c, s0, GO, s1, Silent) && IsStep(c, s1, GO, s2, Silent) && IsStep(c, s2, GO, s3, Silent)
    ensures IsStep(c, s3, GO, s4, Silent)
  {
    EmptyStoreOk([]);
    NothingCached(c, s0);
    hide SkipTo, SkipRoom, Root, StoreInv;
  }

  /** The inner source cannot seek to position 1 of two bytes, and the caller is
      told that the source ends there. */
  lemma EndMayComeEarly() returns (steps: seq<Step>, s: State)
    ensures Leads(Configured([1, 2]), Init(EMPTY_STORE, 2, false), steps, s)
    ensures ClientPos(s) == 1 && s.logicalSize == 2
    ensures Next(Configured([1, 2]), s, RUN).1 == DidRead(1, AVERROR_EOF, [], Some(SeekFailed))
  {
    var c := Configured([1, 2]);
    EmptyStoreOk([1, 2]);
    hide Leads, Root, StoreInv;
    var s0 := Init(EMPTY_STORE, 2, false);
    SeekRound(c, s0, 1);
    var s1 := Sought(s0, 1);
    var s2 := s1.(filler := Top, eof := true, cause := SeekFailed);
    SeekFails(c, s1, -5, s2);
    s := EmptyRead(c, s2);
    var a, b, d := SeekSteps(1), [GO, GO, Fills(Fail(-5))], [CallRead(1), RUN, RUN] + [RUN, RUN];
    LeadsOn(c, s0, a, s1, b, s2);
    LeadsOn(c, s0, a + b, s2, d, s);
    steps := a + b + d;
  }

  /** From the test whether to sleep to a failing seek of the inner source. */
  lemma SeekFails(c: Config, s: State, code: int, s': State)
    requires s.filler.Check? && !s.eof && !s.cacheClosed && !s.asyncOpen && Root(c, s.store) == Nil
    requires s.fileLogical == s.readLogical != s.fileInner && s.fileLogical < s.logicalSize && c.forwards >= 0
    requires s.fileLogicalEnd == 0 && code < 0 && code != FILE_RW_ERROR && code != AVERROR_EOF
    requires s' == s.(filler := Top, eof := true, cause := SeekFailed, fileInner := if s.fileLogical == 0 then 0 else s.fileInner)
    ensures Leads(c, s, [GO, GO, Fills(Fail(code))], s')
  {
    NothingCached(c, s);
    hide Leads, SkipTo, SkipRoom, Root;
    Leads3(c, s, GO, GO, Fills(Fail(code)), s');
  }

  /** A read of one byte when nothing is cached and the end was noted. */
  lemma EmptyRead(c: Config, s: State) returns (s': State)
    requires Quiet(s) && s.eof && s.ioError == 0 && s.cause == SeekFailed && Root(c, s.store) == Nil
    ensures Leads(c, s, [CallRead(1), RUN, RUN] + [RUN, RUN], s')
    ensures ClientPos(s') == s.readLogical && s'.logicalSize == s.logicalSize
    ensures Next(c, s', RUN).1 == DidRead(1, AVERROR_EOF, [], Some(SeekFailed))
  {
    var req := Request(1, 1, [], 0, None);
    var s1 := s.(reader := ReadFile(req), locked := true);
    var s2 := s.(reader := ReadEof(req), locked := true);
    s' := s.(reader := ReadDone(req.(ret := AVERROR_EOF, why := Some(SeekFailed))), locked := true);
    assert Covering(Nil, s.readLogical).None?;
    hide Leads, Root, Covering, FileRead;
    Leads3(c, s, CallRead(1), RUN, RUN, s1);
    Leads1(c, s1, RUN, s2);
    Leads1(c, s2, RUN, s');
    LeadsOn(c, s1, [RUN], s2, [RUN], s');
    assert [RUN] + [RUN] == [RUN, RUN];
    LeadsOn(c, s, [CallRead(1), RUN, RUN], s1, [RUN, RUN], s');
  }

  /** From the test whether to sleep to a seek of the inner source that works,
      followed by a read of it that fails. */
  lemma ReadFails(c: Config, s: State, s': State)
    requires s.filler.Check? && !s.eof && !s.cacheClosed && !s.asyncOpen && Root(c, s.store) == Nil
    requires s.fileLogical == s.readLogical != s.fileInner && s.fileLogical < s.logicalSize && c.forwards >= 0
    requires s.fileLogicalEnd == 0
    requires s' == s.(innerPos := s.fileLogical, fileInner := s.fileLogical, eof := true, cause := ReadFailed(-5), ioError := -5, filler := Top)
    ensures Leads(c, s, [GO, GO, GO] + [Fills(Fail(-5)), GO], s')
  {
    NothingCached(c, s);
    hide Leads, SkipTo, SkipRoom, Root;
    var fail := Fills(Fail(-5));
    var s1 := s.(innerPos := s.fileLogical, fileInner := s.fileLogical, filler := Fetch(FETCH_CHUNK));
    Leads3(c, s, GO, GO, GO, s1);
    var s2 := s1.(eof := true, cause := ReadFailed(-5), filler := Report(-5));
    Leads1(c, s1, fail, s2);
    Leads1(c, s2, GO, s');
    LeadsOn(c, s1, [fail], s2, [GO], s');
    assert [fail] + [GO] == [fail, GO];
    LeadsOn(c, s, [GO, GO, GO], s1, [fail, GO], s');
  }

  /** What the cache is made to believe: one byte, for position 0. */
  const POISONED := Store([2], 1, 1, 1, map[0 := TreeInfo(Node(Nil, Entry(0, 0, 1), 0, Nil), 0, 1, 0)], 0)

  lemma PoisonedStore()
    ensures Grown(Configured([1, 2]), EMPTY_STORE, 0, [2], 1) == POISONED && !Clash(Nil, 0, 0, 1)
  {
    var two: seq<byte> := [2];
    assert two[..1] == two && WriteAt([], 0, two) == two;
    assert Index(Nil, 0, 0, 1) == Node(Nil, Entry(0, 0, 1), 0, Nil);
  }

  /** The second byte of the source is fetched and stored for position 0. */
  lemma FetchesElsewhere(s: State, s': State)
    requires s.filler.Check? && !s.eof && !s.cacheClosed && !s.asyncOpen && !s.locked && s.store == EMPTY_STORE
    requires s.fileLogical == s.readLogical == 0 == s.fileInner && s.innerPos == 1 && s.logicalSize == 2
    requires s.fileLogicalEnd == 0
    requires s' == s.(store := POISONED, innerPos := 2, fileInner := 1, fileLogical := 1, filler := Notify)
    ensures Leads(Configured([1, 2]), s,
      [GO, GO] + ([Fills(Deliver(1))] + [FillerRun(false, Deliver(0), Works(0), Works(1))]), s')
  {
    hide Leads, SkipTo, SkipRoom, Root;
    var c := Configured([1, 2]);
    EmptyStoreOk([1, 2]);
    NothingCached(c, s);
    var s1 := s.(filler := Fetch(FETCH_CHUNK));
    Leads2(c, s, GO, GO, s1);
    var two: seq<byte> := [2];
    var s2 := s.(innerPos := 2, fileInner := 1, filler := Add(two));
    TakesElsewhere(s1, two, s2);
    AddsElsewhere(s2, two, s');
    var take, add := Fills(Deliver(1)), FillerRun(false, Deliver(0), Works(0), Works(1));
    LeadsOn(c, s1, [take], s2, [add], s');
    LeadsOn(c, s, [GO, GO], s1, [take] + [add], s');
  }

  lemma TakesElsewhere(s: State, two: seq<byte>, s': State)
    requires two == [2] && s.filler == Fetch(FETCH_CHUNK) && s.innerPos == 1 && s.fileInner == 0 && !s.asyncOpen && !s.cacheClosed
    requires s' == s.(innerPos := 2, fileInner := 1, filler := Add(two))
    ensures Leads(Configured([1, 2]), s, [Fills(Deliver(1))], s')
  {
    assert Configured([1, 2]).Src()[1..1 + 1] == two;
    hide Leads;
    Leads1(Configured([1, 2]), s, Fills(Deliver(1)), s');
  }

  lemma AddsElsewhere(s: State, two: seq<byte>, s': State)
    requires two == [2] && s.filler == Add(two) && s.store == EMPTY_STORE && s.fileLogical == 0 && !s.locked && !s.cacheClosed
    requires s' == s.(store := POISONED, fileLogical := 1, filler := Notify)
    ensures Leads(Configured([1, 2]), s, [FillerRun(false, Deliver(0), Works(0), Works(1))], s')
  {
    EmptyStoreOk([1, 2]);
    PoisonedStore();
    hide Leads, Root, Grown, Clash;
    Leads1(Configured([1, 2]), s, FillerRun(false, Deliver(0), Works(0), Works(1)), s');
  }

  lemma PoisonedLookup()
    ensures Covering(Root(Configured([1, 2]), POISONED), 0) == Some(Entry(0, 0, 1))
    ensures FileRead(POISONED, Entry(0, 0, 1), 0, 1, 0) == ([2], 1)
  {
    PoisonedEntry();
    assert POISONED.file[0..1] == [2];
    hide Root, Covering;
  }

  lemma PoisonedEntry()
    ensures Covering(Root(Configured([1, 2]), POISONED), 0) == Some(Entry(0, 0, 1))
  {
    assert Root(Configured([1, 2]), POISONED) == Node(Nil, Entry(0, 0, 1), 0, Nil);
  }

  lemma PoisonedFile(s: State, two: seq<byte>)
    requires s.reader == ReadFile(Request(1, 1, [], 0, None)) && s.store == POISONED && s.readLogical == 0
    requires !s.cacheClosed && two == [2]
    ensures Enabled(s, RUN)
    ensures Next(Configured([1, 2]), s, RUN).0 == s.(reader := ReadDone(Request(1, 0, two, 1, None)), readLogical := 1)
  {
    PoisonedLookup();
    hide Root, Covering, FileRead;
    assert [] + two == two;
  }

  lemma PoisonedRead(s: State) returns (s': State)
    requires s.reader.Idle? && !s.locked && !s.abort && !s.cacheClosed && s.store == POISONED && s.readLogical == 0
    ensures Leads(Configured([1, 2]), s, [CallRead(1), RUN, RUN] + [RUN], s')
    ensures ClientPos(s') == 0 && Next(Configured([1, 2]), s', RUN).1 == DidRead(1, 1, [2], None)
  {
    hide Leads, Root, Covering, FileRead, FarEnough;
    var c := Configured([1, 2]);
    var s1 := s.(reader := ReadFile(Request(1, 1, [], 0, None)), locked := true);
    var two: seq<byte> := [2];
    s' := s1.(reader := ReadDone(Request(1, 0, two, 1, None)), readLogical := 1);
    PoisonedFile(s1, two);
    Leads1(c, s1, RUN, s');
    Leads3(c, s, CallRead(1), RUN, RUN, s1);
    LeadsOn(c, s, [CallRead(1), RUN, RUN], s1, [RUN], s');
  }

  /** After a failed seek of the inner source to the front, its position is taken
      to be 0. The caller reads the byte 2 at position 0 of the source 1, 2. */
  lemma WrongByteMayBeRead() returns (steps: seq<Step>, s: State)
    ensures Leads(Configured([1, 2]), Init(EMPTY_STORE, 2, false), steps, s)
    ensures ClientPos(s) == 0 && Next(Configured([1, 2]), s, RUN).1 == DidRead(1, 1, [2], None)
  {
    var c := Configured([1, 2]);
    EmptyStoreOk([1, 2]);
    hide Leads, Root, StoreInv, Next;
    var s0 := Init(EMPTY_STORE, 2, false);
    SeekRound(c, s0, 1);
    var s1 := Sought(s0, 1);
    var s2 := s1.(innerPos := 1, fileInner := 1, eof := true, cause := ReadFailed(-5), ioError := -5, filler := Top);
    ReadFails(c, s1, s2);
    SeekRound(c, s2, 0);
    var s3 := Sought(s2, 0);
    var s4 := s3.(filler := Top, eof := true, cause := SeekFailed, fileInner := 0);
    SeekFails(c, s3, -5, s4);
    SeekRound(c, s4, 0);
    var s5 := Sought(s4, 0);
    var s6 := s5.(store := POISONED, innerPos := 2, fileInner := 1, fileLogical := 1, filler := Notify);
    FetchesElsewhere(s5, s6);
    s := PoisonedRead(s6);
    steps := SeekSteps(1);
    steps := Joined(c, s0, steps, s1, [GO, GO, GO] + [Fills(Fail(-5)), GO], s2);
    steps := Joined(c, s0, steps, s2, SeekSteps(0), s3);
    steps := Joined(c, s0, steps, s3, [GO, GO, Fills(Fail(-5))], s4);
    steps := Joined(c, s0, steps, s4, SeekSteps(0), s5);
    steps := Joined(c, s0, steps, s5, [GO, GO] + ([Fills(Deliver(1))] + [FillerRun(false, Deliver(0), Works(0), Works(1))]), s6);
    steps := Joined(c, s0, steps, s6, [CallRead(1), RUN, RUN] + [RUN], s);
  }

  lemma Joined(c: Config, s: State, a: seq<Step>, s': State, b: seq<Step>, s'': State) returns (ab: seq<Step>)
    requires Leads(c, s, a, s') && Leads(c, s', b, s'')
    ensures Leads(c, s, ab, s'')
  {
    LeadsOn(c, s, a, s', b, s'');
    ab := a + b;
  }

  /** An inner source that fails with -100 (network down) ends the filler, and a
      seek that comes later waits for it for ever. */
  lemma TaskMayLeave() returns (steps: seq<Step>, s: State)
    ensures Leads(Configured([1]), Init(EMPTY_STORE, 1, false), steps, s)
    ensures s.reader.SeekSleep? && s.seek.request && s.filler.Exited? && s.quit && !s.abort
    ensures forall i, r, l, w :: RunFiller(Configured([1]), s, i, r, l, w) == s
  {
    var c := Configured([1]);
    EmptyStoreOk([1]);
    hide Leads, Root, StoreInv, SkipTo, SkipRoom;
    var s0 := Init(EMPTY_STORE, 1, false);
    var s1 := s0.(filler := Fetch(FETCH_CHUNK));
    var s2 := s0.(eof := true, cause := ReadFailed(-100), ioError := -100, filler := Exited, quit := true);
    s := s2.(reader := SeekSleep(0), seek := Seek(true, 0, false, 0));
    TaskLeaves(c, s0, s1, s2);
    LateSeekWaits(c, s2, s);
    steps := Joined(c, s0, [GO, GO] + [GO, GO], s1, [Fills(Fail(-100)), GO, GO], s2);
    steps := Joined(c, s0, steps, s2, [CallSeek(0, Set), RUN, RUN], s);
  }

  lemma TaskLeaves(c: Config, s0: State, s1: State, s2: State)
    requires Root(c, EMPTY_STORE) == Nil && c.forwards >= 0 && s0 == Init(EMPTY_STORE, 1, false)
    requires s1 == s0.(filler := Fetch(FETCH_CHUNK))
    requires s2 == s0.(eof := true, cause := ReadFailed(-100), ioError := -100, filler := Exited, quit := true)
    ensures Leads(c, s0, [GO, GO] + [GO, GO], s1)
    ensures Leads(c, s1, [Fills(Fail(-100)), GO, GO], s2)
  {
    FetchComes(c, s0, s1);
    hide Leads, Root;
    Leads3(c, s1, Fills(Fail(-100)), GO, GO, s2);
  }

  /** The filler begins to fetch the only byte of the source. */
  lemma FetchComes(c: Config, s: State, s': State)
    requires Root(c, EMPTY_STORE) == Nil && c.forwards >= 0 && s == Init(EMPTY_STORE, 1, false)
    requires s' == s.(filler := Fetch(FETCH_CHUNK))
    ensures Leads(c, s, [GO, GO] + [GO, GO], s')
  {
    NothingCached(c, s);
    hide Leads, Root, SkipTo, SkipRoom;
    Leads2(c, s, GO, GO, s.(filler := Check));
    Leads2(c, s.(filler := Check), GO, GO, s');
    LeadsOn(c, s, [GO, GO], s.(filler := Check), [GO, GO], s');
  }

  lemma LateSeekWaits(c: Config, s: State, s': State)
    requires s.reader.Idle? && !s.locked && !s.abort && !s.cacheClosed && s.filler.Exited? && s.seek.ret == 0
    requires s' == s.(reader := SeekSleep(s.readLogical), seek := Seek(true, 0, false, 0))
    ensures Leads(c, s, [CallSeek(0, Set), RUN, RUN], s')
  {
    hide Leads;
    Leads3(c, s, CallSeek(0, Set), RUN, RUN, s');
  }

  /** A seek is interrupted after the filler saw its request. The position moves
      after the call returned: from 0 to 1, without any further call. */
  lemma PositionMayMoveLate() returns (states: seq<State>, steps: seq<Step>, events: seq<Event>)
    ensures IsRun(Configured([1, 2]), states, steps, events) && |steps| == 6
    ensures events[4] == DidSeek(1, AVERROR_EXIT) && events[5] == Silent
    ensures ClientPos(states[5]) == 0 && ClientPos(states[6]) == 1
  {
    var c := Configured([1, 2]);
    EmptyStoreOk([1, 2]);
    hide Root, StoreInv;
    var s0 := Init(EMPTY_STORE, 2, false);
    var s1 := s0.(reader := SeekLock(1));
    var s2 := s0.(reader := SeekHead(0), locked := true, seek := Seek(true, 1, false, 0));
    var s3 := s2.(filler := Poll);
    var s4 := s2.(filler := Handover);
    var s5 := s4.(reader := Idle, locked := false, abort := true);
    var s6 := s5.(readLogical := 1, fileLogical := 1, seek := Seek(false, 1, true, 1), filler := Check);
    var call, stop := CallSeek(1, Set), ReaderRun(true, 0);
    SeekIsSeen(c, s0, s1, s2, s3, s4);
    assert IsStep(c, s4, stop, s5, DidSeek(1, AVERROR_EXIT)) && IsStep(c, s5, GO, s6, Silent);
    hide IsStep;
    states, steps := [s0, s1, s2, s3, s4, s5, s6], [call, RUN, GO, GO, stop, GO];
    events := [Silent, Silent, Silent, Silent, DidSeek(1, AVERROR_EXIT), Silent];
  }

  lemma SeekIsSeen(c: Config, s0: State, s1: State, s2: State, s3: State, s4: State)
    requires s0 == Init(EMPTY_STORE, 2, false) && s1 == s0.(reader := SeekLock(1))
    requires s2 == s0.(reader := SeekHead(0), locked := true, seek := Seek(true, 1, false, 0))
    requires s3 == s2.(filler := Poll) && s4 == s2.(filler := Handover)
    ensures IsStep(c, s0, CallSeek(1, Set), s1, Silent) && IsStep(c, s1, RUN, s2, Silent)
    ensures IsStep(c, s2, GO, s3, Silent) && IsStep(c, s3, GO, s4, Silent)
  {
  }

  /** The inner source fails to deliver the only byte. The caller looks when the
      end is noted and the error is not, and is told that the source ends. */
  lemma FailureMayLookLikeAnEnd() returns (steps: seq<Step>, s: State)
    ensures Leads(Configured([1]), Init(EMPTY_STORE, 1, false), steps, s)
    ensures ClientPos(s) == 0 && s.logicalSize == 1
    ensures Next(Configured([1]), s, RUN).1 == DidRead(1, AVERROR_EOF, [], Some(ReadFailed(-5)))
  {
    var c := Configured([1]);
    EmptyStoreOk([1]);
    hide Leads, Root, StoreInv, SkipTo, SkipRoom, Covering, FileRead;
    var s0 := Init(EMPTY_STORE, 1, false);
    var s1 := s0.(filler := Fetch(FETCH_CHUNK));
    var req := Request(1, 1, [], 0, None);
    var s2 := s1.(reader := ReadEof(req), locked := true);
    s := s2.(eof := true, cause := ReadFailed(-5), filler := Report(-5),
             reader := ReadDone(req.(ret := AVERROR_EOF, why := Some(ReadFailed(-5)))));
    FetchComes(c, s0, s1);
    NothingRead(c, s1, req, s2);
    FailureSeen(c, s2, req, s);
    steps := Joined(c, s0, [GO, GO] + [GO, GO], s1, [CallRead(1), RUN, RUN] + [RUN], s2);
    steps := Joined(c, s0, steps, s2, [Fills(Fail(-5)), RUN], s);
  }

  lemma NothingRead(c: Config, s: State, req: Request, s': State)
    requires s.reader.Idle? && !s.locked && !s.abort && !s.cacheClosed && Root(c, s.store) == Nil
    requires req == Request(1, 1, [], 0, None) && s' == s.(reader := ReadEof(req), locked := true)
    ensures Leads(c, s, [CallRead(1), RUN, RUN] + [RUN], s')
  {
    assert Covering(Nil, s.readLogical).None?;
    hide Leads, Root, Covering, FileRead;
    var s1 := s.(reader := ReadFile(req), locked := true);
    Leads3(c, s, CallRead(1), RUN, RUN, s1);
    Leads1(c, s1, RUN, s');
    LeadsOn(c, s, [CallRead(1), RUN, RUN], s1, [RUN], s');
  }

  lemma FailureSeen(c: Config, s: State, req: Request, s': State)
    requires s.filler.Fetch? && s.reader == ReadEof(req) && req.ret == 0 && s.ioError == 0 && !s.asyncOpen && !s.cacheClosed
    requires s' == s.(eof := true, cause := ReadFailed(-5), filler := Report(-5),
                      reader := ReadDone(req.(ret := AVERROR_EOF, why := Some(ReadFailed(-5)))))
    ensures Leads(c, s, [Fills(Fail(-5)), RUN], s')
  {
    hide Leads;
    Leads2(c, s, Fills(Fail(-5)), RUN, s');
  }
}
