/** ijkavformat/ijkasync.c: a reader and a background filler that share a ring
    buffer, as a state machine over the steps the two threads interleave.

    Sections under the mutex that only touch data guarded by it are one step of
    the filler; the reader's sections are split where the filler's unlocked
    write may become visible in between. */
module AsyncProtocol {
  import opened Common
  import opened Source
  import opened Ring

  const SHORT_SEEK_THRESHOLD := 256 * 1024
  const FILL_CHUNK := 4096

  /** What does not change after async_open: the inner source, the capacities
      and c->logical_size. */
  datatype Config = Config(src: seq<byte>, forwards: nat, backwards: nat, logicalSize: int)
  {
    function Capacity(): nat {
      forwards + backwards
    }
  }

  /** A running async_read_internal. `start` is the position at the call, `out`
      what was copied (or skipped) so far; a skip belongs to a fast seek. */
  datatype Request = Request(start: nat, size: nat, toRead: nat, out: seq<byte>, ret: int, skip: bool)

  datatype Reader =
    | Idle
    | ReadLock(req: Request)                 // before pthread_mutex_lock
    | ReadHead(req: Request)                 // at the loop test, mutex held
    | ReadCopy(req: Request, n: nat)         // fifo_size was read, mutex held
    | ReadSleep(req: Request)                // in pthread_cond_wait
    | ReadWoken(req: Request)                // signalled, needs the mutex again
    | ReadDone(req: Request)                 // behind the loop, mutex held
    | SeekLock(pos: nat)
    | SeekHead                               // at the loop of the slow seek, mutex held
    | SeekSleep
    | SeekWoken
    | Joining                                // in pthread_join of async_close

  datatype Filler =
    | Top                                    // before pthread_mutex_lock at the loop start
    | Fill(size: nat, put: seq<byte>)        // inside the unlocked ring_generic_write
    | Commit(put: seq<byte>, last: int)      // about to publish wndx
    | Post(ret: nat, last: int)              // before the second lock
    | Asleep                                 // in pthread_cond_wait
    | Exited

  /** `base` (the source position of the first byte in the ring), `rebased` and
      `lost` are history variables: the ring was rebased by a seek that the
      reader has not picked up; the last inner seek failed. */
  datatype State = State(
    ring: View, logicalPos: nat, innerPos: nat,
    eof: bool, ioError: int, innerError: int,
    seekRequest: bool, seekPos: nat, seekCompleted: bool, seekRet: int,
    abort: bool, locked: bool,
    reader: Reader, filler: Filler,
    base: nat, rebased: bool, lost: bool)

  /** What the user of the protocol sees of a step: the result of a finished call. */
  datatype Event =
    | Silent
    | DidRead(size: nat, ret: int, out: seq<byte>)
    | DidSeek(target: int, ret: int)
    | DidSize(ret: int)

  /** A step with the choices of the environment: interruption, replies of the
      inner URL, spurious wake-ups. */
  datatype Step =
    | CallRead(size: nat)
    | CallSeek(pos: int, whence: Whence)
    | ReaderRun(interrupted: bool)
    | ReaderSpurious
    | Close
    | FillerRun(interrupted: bool, reply: Reply)
    | FillerSpurious
    | InnerInterrupt

  function Init(c: Config): State {
    State(View([], 0), 0, 0, false, 0, 0, false, 0, false, 0, false, false, Idle, Top, 0, false, false)
  }

  /** pthread_cond_signal(&c->cond_wakeup_background) */
  function WakeFiller(f: Filler): Filler {
    if f.Asleep? then Top else f
  }

  /** pthread_cond_signal(&c->cond_wakeup_main) */
  function WakeReader(r: Reader): Reader {
    match r
    case ReadSleep(req) => ReadWoken(req)
    case SeekSleep => SeekWoken
    case _ => r
  }

  function StartRead(s: State, size: nat, skip: bool): State {
    s.(reader := ReadLock(Request(s.logicalPos, size, size, [], 0, skip)))
  }

  /** async_seek; `target` of a whence that is not known is the given position. */
  function SeekCall(c: Config, s: State, pos: int, whence: Whence): (State, Event) {
    match whence
    case Size => (s, DidSize(c.logicalSize))
    case Cur => SeekTo(c, s, pos + s.logicalPos)
    case Set => SeekTo(c, s, pos)
    case Other => (s, DidSeek(pos, AVERROR_EINVAL))
  }

  /** async_seek up to the slow path; `pos` is the new logical position. */
  function SeekTo(c: Config, s: State, pos: int): (State, Event) {
    if pos < 0 then
      (s, DidSeek(pos, AVERROR_EINVAL))
    else if pos == s.logicalPos then
      (s, DidSeek(pos, s.logicalPos))
    else if s.logicalPos - s.ring.readPos <= pos < s.logicalPos + s.ring.Size() + SHORT_SEEK_THRESHOLD then
      if pos > s.logicalPos then
        (StartRead(s, pos - s.logicalPos, true), Silent)
      else
        (s.(ring := s.ring.(readPos := s.ring.readPos - (s.logicalPos - pos)), logicalPos := pos), DidSeek(pos, pos))
    else if c.logicalSize <= 0 || pos > c.logicalSize then
      (s, DidSeek(pos, AVERROR_EINVAL))
    else
      (s.(reader := SeekLock(pos)), Silent)
  }

  /** The mutex and the filler as they are when the reader goes to sleep. */
  function Sleep(s: State, r: Reader): State {
    s.(reader := r, locked := false, filler := WakeFiller(s.filler))
  }

  /** The copy of `n` bytes and the decision what to do next (lines 406-426). */
  function Copy(c: Config, s: State, req: Request, n: nat): State
    requires s.ring.Valid()
  {
    if 0 < n <= s.ring.Size() && n <= req.toRead then
      var bytes := s.ring.data[s.ring.readPos..s.ring.readPos + n];
      var toRead := req.toRead - n;
      var req' := req.(toRead := toRead, out := req.out + bytes, ret := req.size - toRead);
      var ring' := s.ring.AfterRead(n, c.backwards);
      var s' := s.(ring := ring', logicalPos := s.logicalPos + n, base := s.base + (|s.ring.data| - |ring'.data|));
      if toRead <= 0 || !req.skip then s'.(reader := ReadDone(req')) else Sleep(s', ReadSleep(req'))
    else if s.eof then
      var ret := if req.ret > 0 then req.ret else if s.ioError != 0 then s.ioError else AVERROR_EOF;
      s.(reader := ReadDone(req.(ret := ret)))
    else
      Sleep(s, ReadSleep(req))
  }

  function RunReader(c: Config, s: State, interrupted: bool): (State, Event)
    requires s.ring.Valid()
  {
    var abort := s.abort || interrupted;
    match s.reader
    case Idle => (s, Silent)
    case ReadLock(req) =>
      if s.locked then (s, Silent) else (s.(reader := ReadHead(req), locked := true), Silent)
    case ReadHead(req) =>
      if req.toRead <= 0 then (s.(reader := ReadDone(req)), Silent)
      else if abort then (s.(abort := true, reader := ReadDone(req.(ret := AVERROR_EXIT))), Silent)
      else (s.(reader := ReadCopy(req, Min(req.toRead, s.ring.Size()) as nat)), Silent)
    case ReadCopy(req, n) => (Copy(c, s, req, n), Silent)
    case ReadSleep(_) => (s, Silent)
    case ReadWoken(req) =>
      if s.locked then (s, Silent) else (s.(reader := ReadHead(req), locked := true), Silent)
    case ReadDone(req) =>
      (Sleep(s, Idle), if req.skip then DidSeek(req.start + req.size, s.logicalPos) else DidRead(req.size, req.ret, req.out))
    case SeekLock(pos) =>
      if s.locked then (s, Silent)
      else (s.(seekRequest := true, seekPos := pos, seekCompleted := false, seekRet := 0,
               reader := SeekHead, locked := true), Silent)
    case SeekHead =>
      if abort then
        (s.(abort := true, reader := Idle, locked := false), DidSeek(s.seekPos, AVERROR_EXIT))
      else if s.seekCompleted then
        (s.(logicalPos := if s.seekRet >= 0 then s.seekRet else s.logicalPos, rebased := false,
            reader := Idle, locked := false), DidSeek(s.seekPos, s.seekRet))
      else
        (Sleep(s, SeekSleep), Silent)
    case SeekSleep => (s, Silent)
    case SeekWoken =>
      if s.locked then (s, Silent) else (s.(reader := SeekHead, locked := true), Silent)
    case Joining => (s, Silent)
  }

  /** The locked section at the start of the filler's loop (lines 227-267). */
  function FillerTop(c: Config, s: State, interrupted: bool, reply: Reply): State {
    if s.abort || interrupted then
      s.(abort := true, eof := true, ioError := AVERROR_EXIT, reader := WakeReader(s.reader), filler := Exited)
    else if s.seekRequest then
      var s1 := s.(seekCompleted := true, seekRequest := false, ring := View([], 0), reader := WakeReader(s.reader));
      match reply
      case Deliver(_) =>
        s1.(seekRet := s.seekPos, innerPos := s.seekPos, eof := false, ioError := 0,
            base := s.seekPos, rebased := true, lost := false)
      case Fail(code) =>
        s1.(seekRet := code, eof := true, ioError := code, base := s.logicalPos, lost := true)
    else if s.eof || |s.ring.data| >= c.Capacity() then
      s.(reader := WakeReader(s.reader), filler := Asleep)
    else
      s.(filler := Fill(Min(FILL_CHUNK, c.Capacity() - |s.ring.data|) as nat, []))
  }

  /** One read of the inner URL inside the unlocked write. */
  function FillerRead(c: Config, s: State, size: nat, put: seq<byte>, reply: Reply): State {
    match reply
    case Fail(code) =>
      s.(innerError := code, filler := Commit(put, code))
    case Deliver(n) =>
      if s.innerPos >= |c.src| then
        var code := if n == 0 then 0 else AVERROR_EOF;
        s.(innerError := code, filler := Commit(put, code))
      else
        var len := Min(Min(Max(n, 1), size - |put|), |c.src| - s.innerPos);
        if len <= 0 then s.(filler := Commit(put, 1)) else
        var put' := put + c.src[s.innerPos..s.innerPos + len];
        s.(innerError := 0, innerPos := s.innerPos + len,
           filler := if |put'| >= size then Commit(put', len) else Fill(size, put'))
  }

  function RunFiller(c: Config, s: State, interrupted: bool, reply: Reply): State {
    match s.filler
    case Top => if s.locked then s else FillerTop(c, s, interrupted, reply)
    case Fill(size, put) => FillerRead(c, s, size, put, reply)
    case Commit(put, last) =>
      s.(ring := s.ring.(data := s.ring.data + put), filler := Post(|put|, last))
    case Post(ret, last) =>
      if s.locked then s else
      var s1 := if ret > 0 then s
                else s.(eof := true, ioError := if s.innerError < 0 then s.innerError else s.ioError);
      s1.(reader := WakeReader(s.reader), filler := Top)
    case Asleep => s
    case Exited => s
  }

  /** The codes an inner URL fails with. */
  predicate HonestReply(r: Reply) {
    r.Fail? ==> r.code < 0 && r.code != AVERROR_EOF
  }

  predicate Enabled(s: State, step: Step) {
    match step
    case CallRead(_) => s.reader.Idle?
    case CallSeek(_, _) => s.reader.Idle?
    case Close => s.reader.Idle? && !s.locked
    case ReaderRun(_) => true
    case ReaderSpurious => s.reader.ReadSleep? || s.reader.SeekSleep?
    case FillerRun(_, reply) => HonestReply(reply)
    case FillerSpurious => s.filler.Asleep?
    case InnerInterrupt => s.filler.Fill?
  }

  function Next(c: Config, s: State, step: Step): (State, Event)
    requires s.ring.Valid() && Enabled(s, step)
  {
    match step
    case CallRead(size) => (StartRead(s, size, false), Silent)
    case CallSeek(pos, whence) => SeekCall(c, s, pos, whence)
    case ReaderRun(interrupted) => RunReader(c, s, interrupted)
    case ReaderSpurious => (s.(reader := WakeReader(s.reader)), Silent)
    case Close => (s.(abort := true, reader := Joining, filler := WakeFiller(s.filler)), Silent)
    case FillerRun(interrupted, reply) => (RunFiller(c, s, interrupted, reply), Silent)
    case FillerSpurious => (s.(filler := Top), Silent)
    // async_check_interrupt as the interrupt callback of the inner URL
    case InnerInterrupt => (s.(abort := true), Silent)
  }
}
