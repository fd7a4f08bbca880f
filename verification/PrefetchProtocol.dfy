/** ijkavformat/ijkiocache.c with prefetching: a reader and a background filler
    that share the cache file and its index, as a state machine over the steps
    the two threads interleave.

    The filler works on its positions and on the inner source without the mutex;
    only adding to the index, sleeping and handing over a seek are locked. */
module PrefetchProtocol {
  import opened Common
  import opened AvlTree
  import opened CacheIndex
  import opened CacheStorage
  import opened Source

  const FETCH_CHUNK := 4096
  const RETRIES := 3

  /** What does not change after ijkio_cache_open. `sources` are the plain
      sources of all logical files in the index, `oldSize` is the size of the
      cache file at that time. */
  datatype Config = Config(sources: map<int, seq<byte>>, curNo: int, forwards: int, maxCapacity: int, shared: bool, oldSize: nat)
  {
    function Src(): seq<byte> {
      if curNo in sources then sources[curNo] else []
    }
  }

  /** Why io_eof_reached was last set. */
  datatype Cause = SizeReached | EndReached | SeekFailed | ReadFailed(code: int) | Interrupted

  /** A running ijkio_cache_read: `out` is what was copied so far, `why` the
      reason of a reported end. */
  datatype Request = Request(size: nat, toRead: nat, out: seq<byte>, ret: int, why: Option<Cause>)

  datatype Reader =
    | Idle
    | ReadLock(req: Request)                 // before pthread_mutex_lock
    | ReadHead(req: Request)                 // at the loop test, mutex held
    | ReadFile(req: Request)                 // behind the interrupt test, mutex held
    | ReadEof(req: Request)                  // nothing was cached, mutex held
    | ReadSleep(req: Request)                // in pthread_cond_wait
    | ReadWoken(req: Request)                // signalled, needs the mutex again
    | ReadDone(req: Request)                 // behind the loop, mutex held
    | SeekLock(target: nat)                  // before pthread_mutex_lock
    | SeekHead(start: nat)                   // at the loop, mutex held; `start` is the position at the request
    | SeekSleep(start: nat)
    | SeekWoken(start: nat)
    | CloseSleep                             // ijkio_cache_close, waiting for the filler
    | Closed

  datatype Filler =
    | Top                                    // at the loop start, before the interrupt test
    | Halted                                 // interrupted, io_eof_reached is not yet set
    | Poll                                   // before the test of seek_request, without the mutex
    | Handover                               // a request was seen, before the mutex
    | Check                                  // before the test whether to sleep
    | GoSleep                                // decided to sleep, before the mutex
    | Asleep                                 // in pthread_cond_wait
    | Skip                                   // at the start of ijkio_cache_write_file
    | SeekInner(toCopy: nat)
    | Fetch(toCopy: nat)
    | Report(code: int)                      // io_eof_reached is set, io_error not yet
    | Stopping                               // interrupted, io_eof_reached is set, io_error not yet
    | Add(buf: seq<byte>)                    // before the mutex around add_entry
    | Notify                                 // added something, before signalling
    | Exiting
    | Exited

  /** What concerns the file and the index, all of it guarded by the mutex. */
  datatype Store = Store(file: seq<byte>, fdPos: nat, last: int, cachePhysical: int, trees: map<int, TreeInfo>, retries: nat)

  datatype Seek = Seek(request: bool, target: nat, completed: bool, ret: int)

  /** `cause`, `quit`, `missed` and `resized` are history variables: why the end
      was reported; the filler left its loop over an error of the inner source;
      the close came too late for the filler to notice; opening the inner source
      late brought another size. */
  datatype State = State(
    store: Store, readLogical: nat, fileLogical: nat, fileInner: int, fileLogicalEnd: nat,
    logicalSize: int, asyncOpen: bool, innerPos: nat,
    eof: bool, ioError: int, seek: Seek, abort: bool, cacheClosed: bool, locked: bool,
    reader: Reader, filler: Filler,
    cause: Cause, quit: bool, missed: bool, resized: bool)

  /** What the caller sees of a step: the result of a finished call. */
  datatype Event =
    | Silent
    | DidRead(size: nat, ret: int, out: seq<byte>, why: Option<Cause>)
    | DidSeek(target: int, ret: int)
    | DidSize(ret: int)

  /** A step with the choices of the environment: interruption, the inner
      source, the file system, spurious wake-ups. */
  datatype Step =
    | CallRead(size: nat)
    | CallSeek(pos: int, whence: Whence)
    | ReaderRun(interrupted: bool, n: nat)
    | ReaderSpurious
    | Close
    | FillerRun(interrupted: bool, reply: Reply, lseek: FileReply, write: FileReply)
    | FillerSpurious

  function Init(store: Store, logicalSize: int, asyncOpen: bool): State {
    State(store, 0, 0, 0, 0, logicalSize, asyncOpen, 0, false, 0, Seek(false, 0, false, 0), false, false, false,
          Idle, Top, SizeReached, false, false, false)
  }

  /** pthread_cond_signal(&c->cond_wakeup_file_background) */
  function WakeFiller(f: Filler): Filler {
    if f.Asleep? then Top else f
  }

  /** pthread_cond_signal(&c->cond_wakeup_main) */
  function WakeReader(r: Reader): Reader {
    match r
    case ReadSleep(req) => ReadWoken(req)
    case SeekSleep(start) => SeekWoken(start)
    case _ => r
  }

  /** Signal the filler and wait. */
  function Sleep(s: State, r: Reader): State {
    s.(reader := r, locked := false, filler := WakeFiller(s.filler))
  }

  function Root(c: Config, store: Store): Tree {
    if c.curNo in store.trees then store.trees[c.curNo].root else Nil
  }

  /** ijkio_file_read: the bytes and the offset afterwards. The offset is moved
      only when the recorded one is not the right one. */
  function FileRead(store: Store, e: Entry, pos: nat, toRead: nat, n: nat): (seq<byte>, nat) {
    var block := pos - e.logical;
    var target := e.physical + block;
    var at := if store.cachePhysical != target && target >= 0 then target else store.fdPos;
    var got := Min(Min(Max(n, 1), Min(toRead, e.size - block)), |store.file| - at);
    if got <= 0 then ([], at) else (store.file[at..at + got], at + got)
  }

  /** Lines 1001-1007: `bytes` were copied; the caller has enough, or waits. */
  function Taken(s: State, req: Request, bytes: seq<byte>, at: nat): State
    requires |bytes| <= req.toRead
  {
    var toRead := req.toRead - |bytes|;
    var req' := req.(toRead := toRead, out := req.out + bytes, ret := req.size - toRead);
    var s1 := s.(store := s.store.(fdPos := at), readLogical := s.readLogical + |bytes|);
    if toRead <= 0 then s1.(reader := ReadDone(req')) else Sleep(s1, ReadSleep(req'))
  }

  /** Lines 1000-1018 up to the test of io_eof_reached. */
  function ReadCached(c: Config, s: State, req: Request, n: nat): State {
    var e := Covering(Root(c, s.store), s.readLogical);
    if e.None? then s.(reader := ReadEof(req))
    else
      var (bytes, at) := FileRead(s.store, e.value, s.readLogical, req.toRead, n);
      if 0 < |bytes| <= req.toRead then Taken(s, req, bytes, at)
      else s.(store := s.store.(fdPos := at), reader := ReadEof(req))
  }

  /** The test whether the filler has read far enough ahead (line 510). */
  predicate FarEnough(c: Config, s: State) {
    s.fileLogical - s.readLogical > c.forwards || s.eof
  }

  /** Why the reader meets an end. An interruption at or behind the claimed end
      counts as the end. */
  function EndCause(s: State): Cause {
    if s.cause.Interrupted? && s.readLogical >= s.logicalSize then SizeReached else s.cause
  }

  function RunReader(c: Config, s: State, interrupted: bool, n: nat): (State, Event) {
    var abort := s.abort || interrupted;
    match s.reader
    case ReadLock(req) =>
      (if s.locked then s else s.(reader := ReadHead(req), locked := true), Silent)
    case ReadHead(req) =>
      if req.toRead <= 0 then (s.(reader := ReadDone(req)), Silent)
      else if abort then (s.(abort := true, reader := ReadDone(req.(ret := AVERROR_EXIT))), Silent)
      else (s.(reader := ReadFile(req)), Silent)
    case ReadFile(req) => (ReadCached(c, s, req, n), Silent)
    case ReadEof(req) =>
      if s.eof then
        var ret := if req.ret > 0 then req.ret else if s.ioError != 0 then s.ioError else AVERROR_EOF;
        (s.(reader := ReadDone(req.(ret := ret, why := Some(EndCause(s))))), Silent)
      else (Sleep(s, ReadSleep(req)), Silent)
    case ReadWoken(req) =>
      (if s.locked then s else s.(reader := ReadHead(req), locked := true), Silent)
    case ReadDone(req) =>
      var wake := req.ret != req.size || !FarEnough(c, s);
      (s.(reader := Idle, locked := false, filler := if wake then WakeFiller(s.filler) else s.filler),
       DidRead(req.size, req.ret, req.out, req.why))
    case SeekLock(target) =>
      (if s.locked then s
       else s.(seek := s.seek.(request := true, target := target, completed := false), reader := SeekHead(s.readLogical),
               locked := true),
       Silent)
    case SeekHead(start) =>
      if abort then
        (s.(abort := true, reader := Idle, locked := false), DidSeek(s.seek.target, AVERROR_EXIT))
      else if s.seek.completed then
        (s.(reader := Idle, locked := false), DidSeek(s.seek.target, s.seek.ret))
      else
        (Sleep(s, SeekSleep(start)), Silent)
    case SeekWoken(start) =>
      (if s.locked then s else s.(reader := SeekHead(start), locked := true), Silent)
    case _ => (s, Silent)
  }

  /** The locked section in which a seek is handed over (lines 498-507). The
      request is not looked at again. */
  function FillerHandover(s: State): State {
    s.(eof := false, ioError := 0, readLogical := s.seek.target, fileLogical := s.seek.target,
       seek := Seek(false, s.seek.target, true, s.seek.target), reader := WakeReader(s.reader), filler := Check)
  }

  /** Where the filler goes on when it skips what is cached (lines 388-405). */
  function SkipTo(t: Tree, pos: nat): int {
    var e := Covering(t, pos);
    if e.Some? then e.value.logical + e.value.size else pos
  }

  /** How much it may read there (lines 407-412). */
  function SkipRoom(t: Tree, pos: nat): int {
    var next := Behind(t, pos);
    if next.Some? then Min(next.value.logical - SkipTo(t, pos), FETCH_CHUNK) else FETCH_CHUNK
  }

  /** Lines 414-427 at the new position. */
  function SkipBy(s: State, pos: nat, room: nat): State {
    var atEnd := s.fileLogicalEnd > 0 && pos == s.fileLogicalEnd;
    var ends := room > 0 && (atEnd || pos >= s.logicalSize);
    s.(fileLogical := pos, eof := s.eof || ends,
       cause := if !ends then s.cause else if atEnd then EndReached else SizeReached,
       filler := if room == 0 || ends then Top else if pos != s.fileInner then SeekInner(room) else Fetch(room))
  }

  function FillerSkip(c: Config, s: State): State {
    var t := Root(c, s.store);
    var pos, room := SkipTo(t, s.fileLogical), SkipRoom(t, s.fileLogical);
    if pos < 0 || room < 0 then s.(filler := Top) else SkipBy(s, pos, room)
  }

  /** ijkio_cache_io_open when the opening was put off. */
  function FillerOpen(s: State, reply: Reply): State {
    match reply
    case Fail(code) => s.(eof := true, cause := ReadFailed(code), filler := Report(code))
    case Deliver(size) => s.(logicalSize := size, asyncOpen := false, resized := s.resized || size != s.logicalSize)
  }

  /** The loop goes on unless ijkio_cache_write_file returned FILE_RW_ERROR,
      which is also an error code of the inner source. */
  function Leave(code: int): Filler {
    if code == FILE_RW_ERROR then Exiting else Top
  }

  /** Lines 438-447. */
  function FillerSeek(s: State, toCopy: nat, reply: Reply): State {
    match reply
    case Deliver(_) => s.(innerPos := s.fileLogical, fileInner := s.fileLogical, filler := Fetch(toCopy))
    case Fail(code) =>
      s.(eof := true, cause := SeekFailed,
         fileInner := if s.fileLogicalEnd == s.fileLogical then s.fileLogicalEnd else s.fileInner,
         filler := Leave(code), quit := s.quit || code == FILE_RW_ERROR)
  }

  function Fetched(s: State, buf: seq<byte>): State {
    s.(innerPos := s.innerPos + |buf|, fileInner := s.fileInner + |buf|, filler := Add(buf))
  }

  /** Lines 458-468. */
  function FillerFetch(c: Config, s: State, toCopy: nat, reply: Reply): State {
    match reply
    case Fail(code) => s.(eof := true, cause := ReadFailed(code), filler := Report(code))
    case Deliver(n) =>
      if s.innerPos >= |c.Src()| then
        if n == 0 then s.(fileLogicalEnd := s.fileLogical, eof := true, cause := EndReached, filler := Report(0))
        else s.(eof := true, cause := EndReached, filler := Report(AVERROR_EOF))
      else
        var len := Min(Min(Max(n, 1), toCopy), |c.Src()| - s.innerPos);
        if len <= 0 then s.(filler := Top)
        else Fetched(s, c.Src()[s.innerPos..s.innerPos + len])
  }

  /** ijkio_cache_file_overrang: forget everything and start over. */
  function Flushed(c: Config, f: Store): Store {
    f.(trees := map[c.curNo := EMPTY_TREE], last := 0, cachePhysical := 0, fdPos := 0)
  }

  /** `n` bytes of `buf` were written to the end of the used part of the file
      and indexed for the position. */
  function Grown(c: Config, f: Store, pos: nat, buf: seq<byte>, n: nat): Store
    requires n <= |buf| && f.last >= 0
  {
    f.(file := WriteAt(f.file, f.last, buf[..n]), fdPos := f.last + n, cachePhysical := f.last + n, last := f.last + n, retries := 0,
       trees := if c.curNo in f.trees then Added(f.trees, c.curNo, pos, f.last, n) else f.trees)
  }

  /** add_entry and what follows it under the mutex (lines 245-316, 471-476). */
  function FillerAdd(c: Config, s: State, buf: seq<byte>, lseek: FileReply, write: FileReply): State {
    var f := s.store;
    if lseek.Breaks? || f.last < 0 then
      s.(store := f.(retries := f.retries + 1), filler := Top)
    else if f.last + |buf| >= c.maxCapacity then
      if c.shared || c.maxCapacity < |buf| then s.(cacheClosed := true)
      else s.(store := Flushed(c, f), eof := false, fileLogical := s.readLogical, filler := Top)
    else
      match write
      case Breaks => s.(store := f.(fdPos := f.last, cachePhysical := f.last, retries := f.retries + 1), filler := Top)
      case Works(n) =>
        var ret := Min(n, |buf|);
        var s1 := s.(store := Grown(c, f, s.fileLogical, buf, ret));
        if Clash(Root(c, f), s.fileLogical, f.last, ret) || ret == 0 then s1.(filler := Top)
        else s1.(fileLogical := s.fileLogical + ret, filler := Notify)
  }

  function RunFiller(c: Config, s: State, interrupted: bool, reply: Reply, lseek: FileReply, write: FileReply): State {
    match s.filler
    case Top => if s.abort || interrupted then s.(abort := true, filler := Halted) else s.(filler := Poll)
    case Halted => s.(eof := true, cause := Interrupted, filler := Stopping)
    case Poll => s.(filler := if s.seek.request then Handover else Check)
    case Handover => if s.locked then s else FillerHandover(s)
    case Check => s.(filler := if FarEnough(c, s) then GoSleep else Skip)
    case GoSleep => if s.locked then s else s.(reader := WakeReader(s.reader), filler := Asleep)
    case Asleep => s
    case Skip => FillerSkip(c, s)
    case SeekInner(toCopy) => if s.asyncOpen then FillerOpen(s, reply) else FillerSeek(s, toCopy, reply)
    case Fetch(toCopy) => if s.asyncOpen then FillerOpen(s, reply) else FillerFetch(c, s, toCopy, reply)
    case Report(code) => s.(ioError := code, filler := Leave(code), quit := s.quit || code == FILE_RW_ERROR)
    case Stopping => s.(ioError := AVERROR_EXIT, filler := Exiting)
    case Add(buf) => if s.locked then s else FillerAdd(c, s, buf, lseek, write)
    case Notify => if s.locked then s else s.(reader := WakeReader(s.reader), filler := Top)
    case Exiting =>
      if s.locked then s
      else s.(reader := if s.reader.CloseSleep? then Closed else WakeReader(s.reader), filler := Exited)
    case Exited => s
  }

  /** ijkio_cache_seek up to the mutex. */
  function SeekTo(s: State, pos: int, whence: Whence): (State, Event) {
    if whence.Size? then (s, DidSize(s.logicalSize))
    else
      var target := SeekResult(s.readLogical, whence, pos, s.logicalSize);
      if target < 0 then (s, DidSeek(target, target))
      else (s.(reader := SeekLock(target)), Silent)
  }

  predicate HonestReply(r: Reply) {
    r.Fail? ==> r.code < 0 && r.code != AVERROR_EOF
  }

  /** At most three operations of the filler on the file fail in a row. */
  predicate Tolerable(s: State, lseek: FileReply, write: FileReply) {
    s.filler.Add? && (lseek.Breaks? || write.Breaks?) ==> s.store.retries < RETRIES
  }

  predicate Enabled(s: State, step: Step) {
    && !s.cacheClosed
    && match step
       case CallRead(_) => s.reader.Idle?
       case CallSeek(_, _) => s.reader.Idle?
       case Close => s.reader.Idle? && !s.locked
       case ReaderRun(_, _) => true
       case ReaderSpurious => s.reader.ReadSleep? || s.reader.SeekSleep?
       case FillerRun(_, reply, lseek, write) => HonestReply(reply) && Tolerable(s, lseek, write)
       case FillerSpurious => s.filler.Asleep?
  }

  /** The filler goes to sleep before it looks whether it was interrupted. After a
      hand-over it does so only with a negative forward capacity. */
  predicate WillSleep(c: Config, f: Filler, request: bool, far: bool) {
    match f
    case Asleep => true
    case GoSleep => true
    case Check => far
    case Poll => if request then c.forwards < 0 else far
    case Handover => c.forwards < 0
    case _ => false
  }

  function Next(c: Config, s: State, step: Step): (State, Event) {
    match step
    case CallRead(size) => (s.(reader := ReadLock(Request(size, size, [], 0, None))), Silent)
    case CallSeek(pos, whence) => SeekTo(s, pos, whence)
    case ReaderRun(interrupted, n) => RunReader(c, s, interrupted, n)
    case ReaderSpurious => (s.(reader := WakeReader(s.reader)), Silent)
    // ijkio_cache_close up to the wait for the filler
    case Close =>
      (s.(abort := true, filler := WakeFiller(s.filler), reader := if s.filler.Exited? then Closed else CloseSleep,
          missed := !s.filler.Asleep? && WillSleep(c, s.filler, s.seek.request, FarEnough(c, s))), Silent)
    case FillerRun(interrupted, reply, lseek, write) => (RunFiller(c, s, interrupted, reply, lseek, write), Silent)
    case FillerSpurious => (s.(filler := Top, missed := false), Silent)
  }
}
