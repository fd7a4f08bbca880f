/** ijkavformat/ijkurlhook.c: an HTTP stream that reconnects where it broke off. */
module UrlHooks {
  import opened Common
  import Source

  const AVERROR_EIO := -5
  const AVERROR_ENOSYS := -38

  /** What opening and the application answer: 0 or a negative error. */
  type Status = c: int | c <= 0

  datatype Whence = Set | Cur | End | Size | Other

  /** What the interrupt callback and the application answer to one question. */
  datatype InjectReply = InjectReply(interruptedBefore: bool, code: int, url: string, handled: bool, urlChanged: bool,
                                     interruptedAfter: bool)

  /** What opening gives: 0 or an error, and then whether the offset was honoured
      (if not, where the stream starts), the size, and the replies to reads and
      seeks. */
  datatype OpenReply = OpenReply(code: Status, honoured: bool, at: nat, streamed: bool, size: int, replies: seq<int>)

  /** Where a seek from `cur` in a source of that size goes, or AVERROR(EINVAL). */
  function Target(cur: int, size: int, offset: int, whence: Whence): int {
    var to := match whence
      case Set => offset
      case Cur => cur + offset
      case End => size + offset
      case Size => size
      case Other => -1;
    if to < 0 then Source.AVERROR_EINVAL else to
  }

  /** An absolute seek goes to its offset, a relative one as far from the position or
      from the end; the size is told; anything else and all before the front is refused. */
  lemma TargetLaws(cur: int, other: int, size: int, offset: int)
    ensures Target(cur, size, offset, Set) == (if offset < 0 then Source.AVERROR_EINVAL else offset)
    ensures Target(cur, size, offset, Cur) == Target(other, size, cur + offset, Set) && (cur >= 0 ==> Target(cur, size, 0, Cur) == cur)
    ensures Target(cur, size, offset, End) == Target(other, size, size + offset, Set) && (size >= 0 ==> Target(cur, size, 0, End) == size)
    ensures size >= 0 ==> Target(cur, size, offset, Size) == size
    ensures Target(cur, size, offset, Other) == Source.AVERROR_EINVAL
  {
  }

  /** The next reply of a connection that fails when they are used up. */
  function NextOf(replies: seq<int>): int {
    if replies == [] then AVERROR_EIO else replies[0]
  }

  /** What opening gives. */
  function OpenCode(opens: seq<OpenReply>): Status {
    if opens == [] then AVERROR_EIO else opens[0].code
  }

  /** One opened inner URL. A reply that is not positive is the result of the
      call, which then leaves the position alone; a read may report an error, 0 or
      an end anywhere. */
  class Connection {
    const data: seq<byte>
    const streamed: bool
    const size: int
    var pos: nat
    var replies: seq<int>
    /** the results of all reads and seeks so far */
    var results: seq<int>

    constructor (data: seq<byte>, pos: nat, streamed: bool, size: int, replies: seq<int>)
      ensures this.data == data && this.pos == pos && this.streamed == streamed && this.size == size && this.replies == replies
      ensures results == []
    {
      this.data, this.pos, this.streamed, this.size, this.replies := data, pos, streamed, size, replies;
      results := [];
    }

    method NextReply() returns (r: int)
      modifies this`replies
      ensures r == NextOf(old(replies)) && replies == if old(replies) == [] then [] else old(replies)[1..]
    {
      r := NextOf(replies);
      if replies != [] {
        replies := replies[1..];
      }
    }

    /** What a read of that length will give. */
    function Answer(len: nat): int
      reads this
    {
      var r := NextOf(replies);
      if r <= 0 then r else if pos >= |data| then Source.AVERROR_EOF else Min(Min(r, len), |data| - pos)
    }

    /** ffurl_read. */
    method Read(len: nat) returns (ret: int, bytes: seq<byte>)
      modifies this
      ensures ret <= len && |bytes| == Max(ret, 0)
      ensures Matches(data, old(pos), bytes) && pos == old(pos) + |bytes|
      ensures ret == old(Answer(len)) && results == old(results) + [ret]
    {
      var r := NextReply();
      if r <= 0 {
        ret, bytes := r, [];
      } else if pos >= |data| {
        ret, bytes := Source.AVERROR_EOF, [];
      } else {
        ret := Min(Min(r, len), |data| - pos);
        bytes := data[pos..pos + ret];
        pos := pos + ret;
      }
      results := results + [ret];
    }

    /** ffurl_seek. */
    method Seek(offset: int, whence: Whence) returns (ret: int)
      requires !whence.Size?
      modifies this
      ensures if ret >= 0 then ret == pos == Target(old(pos), size, offset, whence) else pos == old(pos)
      ensures ret == (if NextOf(old(replies)) < 0 then NextOf(old(replies)) else Target(old(pos), size, offset, whence))
      ensures results == old(results) + [ret]
    {
      var r := NextReply();
      ret := if r < 0 then r else Target(pos, size, offset, whence);
      if ret >= 0 {
        pos := ret;
      }
      results := results + [ret];
    }
  }

  datatype Call = DoRead(size: nat) | DoSeek(offset: int, whence: Whence)
  datatype Event = DidRead(ret: int, bytes: seq<byte>) | DidSeek(ret: int)

  /** One call, as a caller of the hook sees it, that moves the stream from `pos`
      to `pos'`: a read delivers the bytes in between, and a seek goes to its target,
      which it returns, or leaves the stream alone, then with an error or 0. `size` is
      the size that the stream claims at the time. */
  ghost predicate Answered(data: seq<byte>, pos: int, size: int, call: Call, ev: Event, pos': int) {
    match call
    case DoRead(len) =>
      && ev.DidRead? && ev.ret <= len && |ev.bytes| == Max(ev.ret, 0)
      && Matches(data, pos, ev.bytes) && pos' == pos + |ev.bytes|
    case DoSeek(offset, whence) =>
      && ev.DidSeek?
      && if whence.Size? then ev.ret == size && pos' == pos
         else if ev.ret < 0 then pos' == pos
         else pos' == ev.ret == Target(pos, size, offset, whence) || (ev.ret == 0 && pos' == pos)
  }

  ghost predicate IsSession(data: seq<byte>, calls: seq<Call>, events: seq<Event>, at: seq<int>, sizes: seq<int>) {
    && |calls| == |events| == |sizes| && |at| == |calls| + 1
    && forall k :: 0 <= k < |calls| ==> Answered(data, at[k], sizes[k], calls[k], events[k], at[k + 1])
  }

  /** The bytes that reads delivered, joined. */
  function Joined(events: seq<Event>): (r: seq<byte>) {
    if events == [] then []
    else
      var last := events[|events| - 1];
      Joined(events[..|events| - 1]) + if last.DidRead? then last.bytes else []
  }

  /** Without a seek in between, the reads of any stretch of a session deliver
      consecutive bytes of the source: none is skipped and none is repeated. */
  lemma {:induction false} ReadsAreConsecutive(data: seq<byte>, calls: seq<Call>, events: seq<Event>, at: seq<int>, sizes: seq<int>,
                                               i: nat, j: nat)
    requires IsSession(data, calls, events, at, sizes)
    requires i <= j <= |calls| && forall k :: i <= k < j ==> calls[k].DoRead?
    ensures Matches(data, at[i], Joined(events[i..j])) && at[j] == at[i] + |Joined(events[i..j])|
    decreases j
  {
    hide Answered, Matches, Joined;
    if i == j {
      NothingJoined(data, at[i], events[i..j]);
    } else {
      assert Answered(data, at[j - 1], sizes[j - 1], calls[j - 1], events[j - 1], at[j]) && calls[j - 1].DoRead?;
      ReadsAreConsecutive(data, calls, events, at, sizes, i, j - 1);
      hide IsSession;
      ReadAnswered(data, at[j - 1], sizes[j - 1], calls[j - 1], events[j - 1], at[j]);
      JoinedOn(events, i, j);
      MatchesConcat(data, at[i], Joined(events[i..j - 1]), events[j - 1].bytes);
    }
  }

  lemma NothingJoined(data: seq<byte>, pos: int, events: seq<Event>)
    ensures events == [] ==> Joined(events) == [] && Matches(data, pos, [])
  {
  }

  lemma JoinedOn(events: seq<Event>, i: nat, j: nat)
    requires i < j <= |events|
    ensures events[j - 1].DidRead? ==> Joined(events[i..j]) == Joined(events[i..j - 1]) + events[j - 1].bytes
  {
    assert events[i..j][..j - 1 - i] == events[i..j - 1];
  }

  lemma ReadAnswered(data: seq<byte>, pos: int, size: int, call: Call, ev: Event, pos': int)
    requires Answered(data, pos, size, call, ev, pos')
    ensures call.DoRead? ==> ev.DidRead? && Matches(data, pos, ev.bytes) && pos' == pos + |ev.bytes|
  {
  }

  predicate AllHonoured(opens: seq<OpenReply>) {
    forall i :: 0 <= i < |opens| ==> opens[i].honoured
  }

  function Tail<T>(s: seq<T>): seq<T> {
    if s == [] then [] else s[1..]
  }

  /** What is left of a list of replies. */
  predicate Left<T(==)>(before: seq<T>, after: seq<T>) {
    |after| <= |before| && after == before[|before| - |after|..]
  }

  lemma LeftOn<T>(before: seq<T>, now: seq<T>)
    requires Left(before, now)
    ensures Left(before, Tail(now))
  {
  }

  lemma LeftAt<T>(before: seq<T>, now: seq<T>)
    requires Left(before, now) && now != []
    ensures |before| >= |now| && before[|before| - |now|] == now[0] && Tail(now) == now[1..]
  {
  }

  class HttpHook {
    const data: seq<byte>
    const startOffset: nat                 // the option "offset" of inner_options
    const hasApp: bool                     // app_ctx != NULL
    const testFailPoint: nat

    var inner: Connection?
    var isStreamed: bool
    var logicalPos: int
    var logicalSize: int
    var ioError: int
    var url: string
    var isHandled: bool
    var isUrlChanged: bool
    var retryCounter: nat
    var testFailPointNext: int
    var injects: seq<InjectReply>
    var opens: seq<OpenReply>
    /** history: how far openings strayed from the offsets asked for, in sum and at all */
    ghost var strayed: int
    ghost var honest: bool
    /** history: the last results of ijkurlhook_read and of ijkhttphook_reseek_at */
    ghost var lastRead: int
    ghost var lastSeek: int

    ghost predicate Valid()
      reads this, inner
    {
      && inner != null && inner.data == data
      && logicalPos == inner.pos && isStreamed == inner.streamed
      && logicalSize == if inner.streamed then -1 else inner.size
    }

    /** ijkurlhook_init. */
    constructor (data: seq<byte>, startOffset: nat, hasApp: bool, testFailPoint: nat, url: string,
                 injects: seq<InjectReply>, opens: seq<OpenReply>)
      ensures this.data == data && this.startOffset == startOffset && this.hasApp == hasApp
      ensures this.testFailPoint == testFailPoint && this.injects == injects && this.opens == opens
      ensures inner == null && strayed == 0 && honest && !isHandled && !isUrlChanged && testFailPointNext == 0
    {
      this.data, this.startOffset, this.hasApp, this.testFailPoint := data, startOffset, hasApp, testFailPoint;
      this.url, this.injects, this.opens := url, injects, opens;
      inner, isStreamed, logicalPos, logicalSize, ioError := null, false, 0, 0, 0;
      isHandled, isUrlChanged, retryCounter, testFailPointNext := false, false, 0, 0;
      strayed, honest := 0, true;
    }

    predicate Allows(r: InjectReply) {
      !r.interruptedBefore && !r.interruptedAfter && (hasApp ==> r.code == 0 && r.url != "")
    }

    /** The questions to the application since then: the last one was not allowed, or
        there are no more answers; it was allowed and the application did not care. */
    predicate LastRefused(before: seq<InjectReply>, after: seq<InjectReply>) {
      || after == []
      || (|after| < |before| && !Allows(before[|before| - |after| - 1]))
    }

    predicate LastDeclined(before: seq<InjectReply>, after: seq<InjectReply>) {
      && |after| < |before|
      && var r := before[|before| - |after| - 1]; Allows(r) && (hasApp ==> !r.handled)
    }

    /** ijkurlhook_call_inject. The application is told of every URL change. Once
        the replies are used up the call is interrupted. */
    method CallInject() returns (ret: int)
      modifies this`injects, this`url, this`isHandled, this`isUrlChanged
      ensures ret == 0 || ret == Source.AVERROR_EXIT
      ensures injects == Tail(old(injects))
      ensures ret == 0 ==> |injects| < |old(injects)|
      ensures ret == 0 <==> old(injects) != [] && Allows(old(injects)[0])
      ensures ret != 0 ==> LastRefused(old(injects), injects)
      ensures ret == 0 && !isHandled ==> LastDeclined(old(injects), injects)
      ensures ret == 0 && !hasApp ==> url == old(url) && isHandled == old(isHandled) && isUrlChanged == old(isUrlChanged)
      ensures ret == 0 && hasApp ==> url == old(injects)[0].url && isHandled == old(injects)[0].handled &&
                                     (isUrlChanged <==> old(injects)[0].urlChanged || url != old(url))
    {
      if injects == [] {
        return Source.AVERROR_EXIT;
      }
      var r := injects[0];
      injects := injects[1..];
      if r.interruptedBefore {
        return Source.AVERROR_EXIT;
      }
      if hasApp {
        var before := url;
        url, isHandled, isUrlChanged := r.url, r.handled, r.urlChanged;
        if r.code != 0 || url == "" {
          return Source.AVERROR_EXIT;
        }
        if !isUrlChanged && before != url {
          isUrlChanged := true;
        }
      }
      ret := if r.interruptedAfter then Source.AVERROR_EXIT else 0;
    }

    /** The last opening gave that code; an exhausted list fails. */
    predicate OpenGave(before: seq<OpenReply>, after: seq<OpenReply>, code: int) {
      || (after == [] && code == AVERROR_EIO)
      || (|after| < |before| && code == before[|before| - |after| - 1].code)
    }

    /** No opening since then strayed if `honest` still holds, which it does if all
        openings to come were honoured. */
    ghost predicate KeptHonest(honest0: bool, strayed0: int, opens0: seq<OpenReply>)
      reads this`honest, this`strayed, this`opens
    {
      && (honest ==> honest0 && strayed == strayed0)
      && (AllHonoured(opens0) ==> (honest0 ==> honest) && AllHonoured(opens))
    }

    /** ijkurlhook_reconnect with the offset to open at. */
    method Reconnect(offset: nat) returns (ret: int)
      modifies this`testFailPointNext, this`opens, this`inner, this`isStreamed, this`logicalPos, this`logicalSize,
               this`ioError, this`strayed, this`honest
      ensures ret <= 0
      ensures ret == OpenCode(old(opens))
      ensures ret == 0 ==> inner != null && inner.results == []
      ensures ret == 0 ==> Valid() && fresh(inner) && ioError == 0 && logicalPos == offset + (strayed - old(strayed))
      ensures KeptHonest(old(honest), old(strayed), old(opens))
      ensures ret != 0 ==> inner == old(inner) && isStreamed == old(isStreamed) && logicalPos == old(logicalPos) &&
                           logicalSize == old(logicalSize) && ioError == old(ioError) &&
                           strayed == old(strayed) && honest == old(honest)
      ensures opens == Tail(old(opens))
      ensures testFailPointNext == old(testFailPointNext) + testFailPoint
    {
      testFailPointNext := testFailPointNext + testFailPoint;
      if opens == [] {
        return AVERROR_EIO;
      }
      var r := opens[0];
      opens := opens[1..];
      if r.code != 0 {
        return r.code;
      }
      var at := if r.honoured then offset else r.at;
      inner := new Connection(data, at, r.streamed, r.size, r.replies);
      strayed, honest := strayed + at - offset, honest && at == offset;
      isStreamed := inner.streamed;
      logicalPos := inner.pos;
      logicalSize := if inner.streamed then -1 else inner.size;
      ioError := 0;
      ret := 0;
    }

    /** ijkhttphook_open. The stream starts at the offset option only if the very
        first attempt succeeds; every later attempt starts at 0. */
    method Open() returns (ret: int)
      requires inner == null
      modifies this
      ensures ret == 0 ==> Valid() && ioError == 0
      ensures ret == 0 ==> logicalPos == StartsAt(OpenCode(old(opens))) + (strayed - old(strayed))
      ensures ret != 0 ==> inner == null && strayed == old(strayed)
      ensures old(injects != [] && Allows(injects[0]) && OpenCode(opens) == 0) ==> ret == 0
      ensures ret != 0 ==> OpenEnds(old(injects), old(opens), ret)
    {
      hide *;
      ghost var injects0, opens0, start := injects, opens, StartsAt(OpenCode(opens));
      var more;
      ret, more := OpenFirst();
      while ret != 0 && more
        invariant old(injects != [] && Allows(injects[0]) && OpenCode(opens) == 0) ==> ret == 0
        invariant if ret == 0 then Valid() && ioError == 0 else inner == null && strayed == old(strayed)
        invariant ret == 0 ==> logicalPos == start + (strayed - old(strayed))
        invariant ret != 0 && more ==> start == 0
        invariant if more then Attempted(injects0, opens0, ret) else OpenEnds(injects0, opens0, ret)
        decreases ret != 0 && more, |injects|
      {
        ret, more := OpenAgain(ret, injects0, opens0);
      }
    }

    /** ijkhttphook_open up to its loop. */
    method OpenFirst() returns (ret: int, more: bool)
      requires inner == null
      modifies this
      ensures if ret == 0 then Valid() && ioError == 0 && logicalPos == StartsAt(OpenCode(old(opens))) + (strayed - old(strayed))
              else inner == null && strayed == old(strayed)
      ensures old(injects != [] && Allows(injects[0]) && OpenCode(opens) == 0) ==> ret == 0
      ensures if more then Attempted(old(injects), old(opens), ret) && ret == OpenCode(old(opens))
              else ret != 0 && OpenEnds(old(injects), old(opens), ret)
      ensures more && ret != 0 ==> StartsAt(OpenCode(old(opens))) == 0
    {
      ghost var injects0, opens0 := injects, opens;
      LeftAll(injects, opens);
      LeftOn(injects, injects);
      LeftOn(opens, opens);
      hide Allows, AllHonoured, KeptHonest, Left, Tail, OpenGave, LastRefused, LastDeclined, OpenCode;
      ret := CallInject();
      if ret != 0 {
        return ret, false;
      }
      ret := Reconnect(startOffset);
      OpenOn(opens0, opens0, opens);
      more := true;
    }

    /** Where the stream begins if the first attempt gave that code. */
    function StartsAt(code: int): nat {
      if code == 0 then startOffset else 0
    }

    /** So far all attempts to open failed, or the last one worked. */
    ghost predicate Attempted(injects0: seq<InjectReply>, opens0: seq<OpenReply>, ret: int)
      reads this`injects, this`opens
    {
      Left(injects0, injects) && Left(opens0, opens) && OpenGave(opens0, opens, ret)
    }

    /** Why opening has failed for good. */
    ghost predicate OpenEnds(injects0: seq<InjectReply>, opens0: seq<OpenReply>, ret: int)
      reads this
    {
      || (ret == Source.AVERROR_EXIT && LastRefused(injects0, injects))
      || (OpenGave(opens0, opens, ret) && (ret == Source.AVERROR_EXIT || (!isHandled && LastDeclined(injects0, injects))))
    }

    /** One turn of the loop of ijkhttphook_open, behind an attempt that failed. */
    method OpenAgain(failed: int, ghost injects0: seq<InjectReply>, ghost opens0: seq<OpenReply>) returns (ret: int, more: bool)
      requires inner == null && failed != 0 && Attempted(injects0, opens0, failed)
      modifies this
      ensures if more then Attempted(injects0, opens0, ret) && |injects| < |old(injects)| else ret != 0 && OpenEnds(injects0, opens0, ret)
      ensures if ret == 0 then Valid() && ioError == 0 && logicalPos == strayed - old(strayed)
              else inner == null && strayed == old(strayed)
    {
      hide Left, Tail, OpenGave, LastRefused, LastDeclined;
      if failed == Source.AVERROR_EXIT {
        return failed, false;
      }
      LeftOn(injects0, injects);
      LeftOn(opens0, opens);
      ghost var asked, unopened := injects, opens;
      retryCounter := retryCounter + 1;
      var injected := CallInject();
      LastOn(injects0, asked, injects);
      if injected != 0 {
        return Source.AVERROR_EXIT, false;
      }
      if !isHandled {
        return failed, false;
      }
      ret := Reconnect(0);
      OpenOn(opens0, unopened, opens);
      more := true;
    }

    /** The position of the test option is reached. */
    predicate AtFailPoint()
      reads this`testFailPointNext, this`logicalPos
    {
      testFailPointNext > 0 && logicalPos >= testFailPointNext
    }

    /** ijkurlhook_read. */
    method PlainRead(size: nat) returns (ret: int, bytes: seq<byte>)
      requires Valid()
      modifies this`logicalPos, this`ioError, this`lastRead, inner
      ensures Valid()
      ensures ret <= size && |bytes| == Max(ret, 0) && lastRead == ret
      ensures Matches(data, old(logicalPos), bytes) && logicalPos == old(logicalPos) + |bytes|
      ensures ioError == if ret > 0 then old(ioError) else ret
      ensures old(ioError) < 0 ==> ret == old(ioError) && inner.results == old(inner.results)
      ensures old(ioError >= 0 && AtFailPoint()) ==> ret == AVERROR_EIO
      ensures old(ioError >= 0 && !AtFailPoint()) ==> ret == old(inner.Answer(size)) && inner.results == old(inner.results) + [ret]
    {
      bytes := [];
      if ioError < 0 {
        ret := ioError;
      } else if testFailPointNext > 0 && logicalPos >= testFailPointNext {
        ioError := AVERROR_EIO;
        ret := AVERROR_EIO;
      } else {
        ret, bytes := inner.Read(size);
        if ret > 0 {
          logicalPos := logicalPos + ret;
        } else {
          ioError := ret;
        }
      }
      lastRead := ret;
    }

    /** Asks the application and opens again at the position reached: one turn of
        the loop of ijkhttphook_read, which ends there if `ret` is 0 or
        AVERROR_EXIT without `again`. */
    method Reopen() returns (ret: int, again: bool)
      requires Valid()
      modifies this`retryCounter, this`injects, this`url, this`isHandled, this`isUrlChanged, this`testFailPointNext,
               this`opens, this`inner, this`isStreamed, this`logicalPos, this`logicalSize, this`ioError, this`strayed,
               this`honest
      ensures Valid() && (inner == old(inner) || fresh(inner))
      ensures logicalPos == old(logicalPos) + (strayed - old(strayed))
      ensures KeptHonest(old(honest), old(strayed), old(opens))
      ensures again ==> ret <= 0 && |injects| < |old(injects)|
      ensures ret != 0 || !again ==> logicalSize == old(logicalSize) && isStreamed == old(isStreamed) && strayed == old(strayed)
      ensures injects == Tail(old(injects))
      ensures if again then ret == OpenCode(old(opens)) && opens == Tail(old(opens))
              else opens == old(opens) &&
                   if ret == 0 then !isHandled && LastDeclined(old(injects), injects)
                   else ret == Source.AVERROR_EXIT && LastRefused(old(injects), injects)
      ensures if again && ret == 0 then fresh(inner) && inner.results == [] && ioError == 0
              else inner == old(inner) && ioError == old(ioError)
      ensures testFailPoint == 0 ==> testFailPointNext == old(testFailPointNext)
    {
      hide AllHonoured, Allows;
      again := false;
      retryCounter := retryCounter + 1;
      ret := CallInject();
      if ret != 0 || !isHandled {
        return;
      }
      again := true;
      ret := Reconnect(logicalPos);
    }

    /** Why the last inner read failed: the error was remembered, the test option says
        so, or it is the last result of the connection, which was asked once if it is
        still the old one. */
    ghost predicate ReadFailed(inner0: Connection?, results0: seq<int>, error0: int, failPoint0: int)
      reads this, inner
    {
      || (inner == inner0 && error0 < 0 && lastRead == error0)
      || (lastRead == AVERROR_EIO && (testFailPoint > 0 || failPoint0 > 0))
      || (inner != null && inner.results != [] && lastRead == inner.results[|inner.results| - 1]
          && (inner == inner0 ==> |inner.results| == |results0| + 1))
    }

    /** The application gave up, an opening failed, or the application interrupted. */
    ghost predicate Excused(injects0: seq<InjectReply>, opens0: seq<OpenReply>, ret: int)
      reads this`injects, this`opens
    {
      if ret == 0 then LastDeclined(injects0, injects)
      else OpenGave(opens0, opens, ret) || (ret == Source.AVERROR_EXIT && LastRefused(injects0, injects))
    }

    /** What a call of ijkhttphook_read that is at `ret` has done since it began. */
    ghost predicate Tracked(inner0: Connection?, results0: seq<int>, error0: int, failPoint0: int,
                            injects0: seq<InjectReply>, opens0: seq<OpenReply>, ret: int)
      reads this, inner
    {
      && (lastRead < 0 ==> ReadFailed(inner0, results0, error0, failPoint0))
      && Left(injects0, injects) && Left(opens0, opens)
      && (testFailPoint == 0 ==> testFailPointNext == failPoint0)
      && (ret == lastRead || (lastRead < 0 && Excused(injects0, opens0, ret)))
    }

    lemma LastOn(before: seq<InjectReply>, now: seq<InjectReply>, after: seq<InjectReply>)
      requires Left(before, now) && after == Tail(now)
      ensures LastRefused(now, after) ==> LastRefused(before, after)
      ensures LastDeclined(now, after) ==> LastDeclined(before, after)
    {
      if now != [] {
        LeftAt(before, now);
      }
      hide Allows;
    }

    lemma OpenOn(before: seq<OpenReply>, now: seq<OpenReply>, after: seq<OpenReply>)
      requires Left(before, now)
      ensures after == Tail(now) ==> OpenGave(before, after, OpenCode(now))
    {
      if now != [] {
        LeftAt(before, now);
      }
    }

    lemma LeftAll(injects: seq<InjectReply>, opens: seq<OpenReply>)
      ensures Left(injects, injects) && Left(opens, opens)
    {
    }

    /** One turn of the loop of ijkhttphook_read: it reads on from a new connection, or
        the opening fails, or it gives up. */
    method Retry(size: nat, ghost inner0: Connection?, ghost results0: seq<int>, ghost error0: int, ghost failPoint0: int,
                 ghost injects0: seq<InjectReply>, ghost opens0: seq<OpenReply>, ghost now: int)
      returns (ret: int, bytes: seq<byte>, again: bool)
      requires Valid() && now < 0 && lastRead < 0
      requires Tracked(inner0, results0, error0, failPoint0, injects0, opens0, now)
      modifies this`retryCounter, this`injects, this`url, this`isHandled, this`isUrlChanged, this`testFailPointNext,
               this`opens, this`inner, this`isStreamed, this`logicalPos, this`logicalSize, this`ioError, this`strayed,
               this`honest, this`lastRead
      ensures Valid() && (inner == old(inner) || fresh(inner))
      ensures ret <= size && |bytes| == Max(ret, 0) && Matches(data, logicalPos - |bytes|, bytes)
      ensures logicalPos == old(logicalPos) + |bytes| + (strayed - old(strayed))
      ensures KeptHonest(old(honest), old(strayed), old(opens))
      ensures again ==> |injects| < |old(injects)|
      ensures !again ==> ret == Source.AVERROR_EXIT || (ret == 0 && !isHandled)
      ensures inner == old(inner) ==> lastRead == old(lastRead) && logicalPos == old(logicalPos) && isStreamed == old(isStreamed) &&
                                      logicalSize == old(logicalSize) && bytes == [] && (again ==> ret < 0)
      ensures inner != old(inner) ==> again && ret == lastRead && allocated(inner)
      ensures Tracked(inner0, results0, error0, failPoint0, injects0, opens0, ret)
    {
      hide Matches, Allows, AllHonoured, Connection.Answer, LastRefused, LastDeclined, OpenGave, OpenCode, Left;
      MatchesEmpty(data, logicalPos);
      LeftOn(injects0, injects);
      LeftOn(opens0, opens);
      ghost var asked, unopened := injects, opens;
      bytes := [];
      ret, again := Reopen();
      LastOn(injects0, asked, injects);
      OpenOn(opens0, unopened, opens);
      if again && ret == 0 {
        ret, bytes := PlainRead(size);
      }
    }

    /** ijkhttphook_read. Whatever fails in between and however often it
        reconnects, the bytes are those right after the last position, shifted
        exactly by what openings strayed. The result is that of the last inner
        read, unless that failed inside the stream: then it is 0 if the
        application gave up and AVERROR_EXIT if it interrupted. A connection that
        delivers is passed on, and no failure is made up. */
    method Read(size: nat) returns (ret: int, bytes: seq<byte>)
      requires Valid()
      modifies this, inner
      ensures Valid() && (inner == old(inner) || fresh(inner))
      ensures ret <= size && |bytes| == Max(ret, 0)
      ensures Matches(data, logicalPos - |bytes|, bytes)
      ensures logicalPos == old(logicalPos) + |bytes| + (strayed - old(strayed))
      ensures KeptHonest(old(honest), old(strayed), old(opens))
      ensures ret <= 0 ==> ioError == ret
      ensures lastRead >= 0 || isStreamed || logicalPos >= logicalSize ==> ret == lastRead
      ensures lastRead < 0 && !isStreamed && logicalPos < logicalSize ==>
                ret == Source.AVERROR_EXIT || (ret == 0 && !isHandled)
      ensures old(ioError >= 0 && !AtFailPoint() && inner.Answer(size) >= 0) ==> ret == old(inner.Answer(size))
      ensures lastRead < 0 ==> ReadFailed(old(inner), old(inner.results), old(ioError), old(testFailPointNext))
      ensures ret == lastRead || Excused(old(injects), old(opens), ret)
    {
      hide Matches, Allows, AllHonoured, Connection.Answer, LastRefused, LastDeclined, Left, OpenGave, OpenCode;
      LeftAll(injects, opens);
      ghost var inner0, results0, error0, failPoint0 := inner, inner.results, ioError, testFailPointNext;
      ghost var injects0, opens0 := injects, opens;
      retryCounter := 0;
      ret, bytes := PlainRead(size);
      assert Tracked(inner0, results0, error0, failPoint0, injects0, opens0, ret);
      hide Tracked, ReadFailed, AtFailPoint;
      if ret < 0 {
        ret, bytes := ReadOn(size, ret, inner0, results0, error0, failPoint0, injects0, opens0);
      }
      TrackedIs(inner0, results0, error0, failPoint0, injects0, opens0, ret);
      if ret <= 0 {
        ioError := ret;
      }
    }

    /** The loop of ijkhttphook_read, behind a read that failed. */
    method ReadOn(size: nat, failed: int, ghost inner0: Connection?, ghost results0: seq<int>, ghost error0: int, ghost failPoint0: int,
                  ghost injects0: seq<InjectReply>, ghost opens0: seq<OpenReply>)
      returns (ret: int, bytes: seq<byte>)
      requires Valid() && failed < 0 && lastRead == failed
      requires Tracked(inner0, results0, error0, failPoint0, injects0, opens0, failed)
      modifies this
      ensures Valid() && (inner == old(inner) || fresh(inner))
      ensures ret <= size && |bytes| == Max(ret, 0)
      ensures Matches(data, logicalPos - |bytes|, bytes)
      ensures logicalPos == old(logicalPos) + |bytes| + (strayed - old(strayed))
      ensures KeptHonest(old(honest), old(strayed), old(opens))
      ensures lastRead >= 0 || isStreamed || logicalPos >= logicalSize ==> ret == lastRead
      ensures lastRead < 0 && !isStreamed && logicalPos < logicalSize ==>
                ret == Source.AVERROR_EXIT || (ret == 0 && !isHandled)
      ensures Tracked(inner0, results0, error0, failPoint0, injects0, opens0, ret)
    {
      hide Matches, Allows, AllHonoured, Tracked;
      MatchesEmpty(data, logicalPos);
      ret, bytes := failed, [];
      while ret < 0 && !isStreamed && logicalPos < logicalSize
        invariant Valid() && (inner == old(inner) || fresh(inner))
        invariant ret <= size && |bytes| == Max(ret, 0)
        invariant Matches(data, logicalPos - |bytes|, bytes)
        invariant logicalPos == old(logicalPos) + |bytes| + (strayed - old(strayed))
        invariant KeptHonest(old(honest), old(strayed), old(opens))
        invariant ret == lastRead || (ret < 0 && lastRead < 0 && !isStreamed && logicalPos < logicalSize)
        invariant Tracked(inner0, results0, error0, failPoint0, injects0, opens0, ret)
        decreases ret < 0, |injects|
      {
        if ret == Source.AVERROR_EXIT {
          break;
        }
        var again;
        ret, bytes, again := Retry(size, inner0, results0, error0, failPoint0, injects0, opens0, ret);
        if !again {
          break;
        }
      }
    }

    lemma TrackedIs(inner0: Connection?, results0: seq<int>, error0: int, failPoint0: int,
                    injects0: seq<InjectReply>, opens0: seq<OpenReply>, ret: int)
      requires Tracked(inner0, results0, error0, failPoint0, injects0, opens0, ret)
      ensures lastRead < 0 ==> ReadFailed(inner0, results0, error0, failPoint0)
      ensures ret == lastRead || (lastRead < 0 && Excused(injects0, opens0, ret))
    {
    }

    /** ijkurlhook_seek. */
    method PlainSeek(offset: int, whence: Whence) returns (ret: int)
      requires Valid() && !whence.Size?
      modifies this`logicalPos, this`ioError, this`testFailPointNext, inner
      ensures Valid()
      ensures ret >= 0 ==> ret == logicalPos == Target(old(logicalPos), inner.size, offset, whence) && ioError == 0
      ensures ret < 0 ==> logicalPos == old(logicalPos) && ioError == ret
      ensures ret >= 0 <==> NextOf(old(inner.replies)) >= 0 && Target(old(logicalPos), inner.size, offset, whence) >= 0
    {
      ret := inner.Seek(offset, whence);
      if ret < 0 {
        ioError := ret;
        return;
      }
      logicalPos := ret;
      if testFailPoint != 0 {
        testFailPointNext := logicalPos + testFailPoint;
      }
      ioError := 0;
    }

    /** ijkhttphook_reseek_at: seeking the inner URL and opening a new one go to the
        same place. */
    method ReseekAt(offset: int, whence: Whence, force: bool) returns (ret: int)
      requires Valid() && !whence.Size? && !isStreamed
      modifies this`testFailPointNext, this`opens, this`inner, this`isStreamed, this`logicalPos, this`logicalSize,
               this`ioError, this`strayed, this`honest, this`lastSeek, inner
      ensures Valid() && (inner == old(inner) || fresh(inner)) && lastSeek == ret
      ensures KeptHonest(old(honest), old(strayed), old(opens))
      ensures ret >= 0 ==> ret == logicalPos && var to := Target(old(logicalPos), old(logicalSize), offset, whence);
                           to >= 0 && ret == to + (strayed - old(strayed))
      ensures ret < 0 ==> logicalPos == old(logicalPos) && logicalSize == old(logicalSize) &&
                          isStreamed == old(isStreamed) && strayed == old(strayed)
      ensures ret >= 0 <==>
        && Target(old(logicalPos), old(logicalSize), offset, whence) >= 0
        && (if force then OpenCode(old(opens)) == 0 else NextOf(old(inner.replies)) >= 0)
    {
      if !force {
        ret := PlainSeek(offset, whence);
        lastSeek := ret;
        return;
      }
      var pos := offset;
      if whence.Cur? {
        pos := pos + logicalPos;
      } else if whence.End? {
        pos := pos + logicalSize;
      } else if !whence.Set? {
        lastSeek := Source.AVERROR_EINVAL;
        return Source.AVERROR_EINVAL;
      }
      if pos < 0 {
        lastSeek := Source.AVERROR_EINVAL;
        return Source.AVERROR_EINVAL;
      }
      ret := Reconnect(pos);
      if ret != 0 {
        ioError := ret;
      } else {
        ioError := 0;
        ret := logicalPos;
      }
      lastSeek := ret;
    }

    /** Nothing interrupts the next two questions, and no application answers them. */
    predicate Unattended()
      reads this`isHandled, this`isUrlChanged, this`injects
    {
      !hasApp && !isHandled && !isUrlChanged && |injects| >= 2 && Allows(injects[0]) && Allows(injects[1])
    }

    /** The seek is tried, and its target lies before the start. */
    predicate MissesStart(offset: int, whence: Whence)
      reads this`isStreamed, this`logicalPos, this`logicalSize
    {
      !isStreamed && !whence.Size? && !(whence.End? && logicalSize < 0) && Target(logicalPos, logicalSize, offset, whence) < 0
    }

    /** The next question is allowed, and the connection that is then used works: the
        old one, or a new one if the address changes. */
    predicate Served()
      reads this`url, this`isUrlChanged, this`injects, this`opens, this`inner, inner
      requires inner != null
    {
      && injects != [] && Allows(injects[0])
      && var changed := if hasApp then injects[0].urlChanged || injects[0].url != url else isUrlChanged;
         if changed then OpenCode(opens) == 0 else NextOf(inner.replies) >= 0
    }

    /** Asks the application and then seeks: one attempt of ijkhttphook_seek. The
        answer `isHandled` counts from the second attempt on; without `tried` the
        seek ends there. */
    method Attempt(offset: int, whence: Whence, first: bool) returns (ret: int, tried: bool, seekRet: int)
      requires Valid() && !whence.Size? && !isStreamed
      modifies this`retryCounter, this`injects, this`url, this`isHandled, this`isUrlChanged, this`testFailPointNext,
               this`opens, this`inner, this`isStreamed, this`logicalPos, this`logicalSize, this`ioError, this`strayed,
               this`honest, this`lastSeek, inner
      ensures Valid() && (inner == old(inner) || fresh(inner))
      ensures KeptHonest(old(honest), old(strayed), old(opens))
      ensures if tried then ret == 0 && |injects| < |old(injects)| else ret == Source.AVERROR_EXIT || (ret == 0 && !isHandled && !first)
      ensures lastSeek == if tried then seekRet else old(lastSeek)
      ensures injects == Tail(old(injects))
      ensures !tried ==> if ret == 0 then LastDeclined(old(injects), injects) else LastRefused(old(injects), injects)
      ensures old(Served()) && first && Target(old(logicalPos), old(logicalSize), offset, whence) >= 0 ==> tried && seekRet >= 0
      ensures tried && lastSeek >= 0 ==> var to := Target(old(logicalPos), old(logicalSize), offset, whence);
                                         to >= 0 && lastSeek == logicalPos == to + (strayed - old(strayed))
      ensures !tried || lastSeek < 0 ==> logicalPos == old(logicalPos) && logicalSize == old(logicalSize) &&
                                         !isStreamed && strayed == old(strayed)
      ensures !hasApp && !old(isHandled) && old(injects) != [] && Allows(old(injects)[0]) ==>
                ret == 0 && !isHandled && (tried <==> first) && injects == old(injects)[1..]
    {
      hide AllHonoured, Allows, Target, LastRefused, LastDeclined;
      retryCounter := if first then 0 else retryCounter + 1;
      ret := CallInject();
      tried := ret == 0 && (first || isHandled);
      seekRet := -1;
      if tried {
        seekRet := ReseekAt(offset, whence, isUrlChanged);
      }
    }

    /** The seek asks for where the stream stands. */
    predicate Stays(offset: int, whence: Whence)
      reads this`logicalPos
    {
      (whence.Cur? && offset == 0) || (whence.Set? && offset == logicalPos)
    }

    predicate CannotSeek(whence: Whence)
      reads this`logicalSize, this`isStreamed
    {
      isStreamed || (whence.End? && logicalSize < 0)
    }

    /** ijkhttphook_seek. A failed seek leaves the position alone. It may still
        return 0 as if it were the position: what it returns without an error is
        the position exactly when the last attempt succeeded or the stream was at
        its very start. */
    method Seek(offset: int, whence: Whence) returns (ret: int)
      requires Valid()
      modifies this, inner
      ensures Valid() && (inner == old(inner) || fresh(inner))
      ensures KeptHonest(old(honest), old(strayed), old(opens))
      ensures whence.Size? ==> ret == old(logicalSize) && logicalPos == old(logicalPos)
      ensures ret < 0 || lastSeek < 0 || whence.Size? ==> logicalPos == old(logicalPos) && strayed == old(strayed)
      ensures !whence.Size? && ret >= 0 ==> (ret == logicalPos <==> lastSeek >= 0 || old(logicalPos) == 0)
      ensures !whence.Size? && ret >= 0 && lastSeek >= 0 ==>
                logicalPos == Target(old(logicalPos), old(logicalSize), offset, whence) + (strayed - old(strayed))
      ensures ret >= 0 && lastSeek < 0 ==>
                ret == 0 && (lastSeek == Source.AVERROR_EXIT || lastSeek == Source.AVERROR_EOF || !isHandled)
      ensures old(Unattended() && MissesStart(offset, whence)) ==> ret == 0 && lastSeek < 0
      ensures old(Stays(offset, whence)) ==> ret == logicalPos == old(logicalPos)
      ensures !whence.Size? && !old(Stays(offset, whence)) && old(CannotSeek(whence)) ==> ret == AVERROR_ENOSYS
      ensures !whence.Size? && !old(Stays(offset, whence) || CannotSeek(whence)) && ret < 0 ==>
                ret == Source.AVERROR_EXIT && LastRefused(old(injects), injects)
      ensures !whence.Size? && !old(Stays(offset, whence) || CannotSeek(whence)) && old(Served()) &&
              Target(old(logicalPos), old(logicalSize), offset, whence) >= 0 ==>
                ret == logicalPos == Target(old(logicalPos), old(logicalSize), offset, whence) + (strayed - old(strayed))
    {
      hide Allows, AllHonoured, LastRefused, LastDeclined, Served, Unattended;
      lastSeek := logicalPos;
      if whence.Size? {
        return logicalSize;
      } else if (whence.Cur? && offset == 0) || (whence.Set? && offset == logicalPos) {
        return logicalPos;
      } else if (logicalSize < 0 && whence.End?) || isStreamed {
        return AVERROR_ENOSYS;
      }
      ret := SeekAway(offset, whence);
    }

    /** The attempts of ijkhttphook_seek, for a seek that is not answered at once. */
    method SeekAway(offset: int, whence: Whence) returns (ret: int)
      requires Valid() && !whence.Size? && !Stays(offset, whence) && !CannotSeek(whence)
      modifies this, inner
      ensures Valid() && (inner == old(inner) || fresh(inner))
      ensures KeptHonest(old(honest), old(strayed), old(opens))
      ensures ret < 0 || lastSeek < 0 ==> logicalPos == old(logicalPos) && strayed == old(strayed)
      ensures ret < 0 ==> ret == Source.AVERROR_EXIT && LastRefused(old(injects), injects)
      ensures ret >= 0 && lastSeek >= 0 ==>
                ret == logicalPos == Target(old(logicalPos), old(logicalSize), offset, whence) + (strayed - old(strayed))
      ensures ret >= 0 && lastSeek < 0 ==>
                ret == 0 && (lastSeek == Source.AVERROR_EXIT || lastSeek == Source.AVERROR_EOF || !isHandled)
      ensures old(Unattended()) && Target(old(logicalPos), old(logicalSize), offset, whence) < 0 ==> ret == 0 && lastSeek < 0
      ensures old(Served()) && Target(old(logicalPos), old(logicalSize), offset, whence) >= 0 ==> ret >= 0 && lastSeek >= 0
    {
      hide Allows, AllHonoured, Left, Tail, LastRefused, LastDeclined, Served, Target;
      LeftAll(injects, opens);
      LeftOn(injects, injects);
      ghost var to := Target(logicalPos, logicalSize, offset, whence);
      var tried, seekRet;
      ret, tried, seekRet := Attempt(offset, whence, true);
      if !tried {
        lastSeek := ret;
        return;
      }
      while seekRet < 0
        invariant Valid() && (inner == old(inner) || fresh(inner))
        invariant KeptHonest(old(honest), old(strayed), old(opens))
        invariant ret == 0 && lastSeek == seekRet
        invariant seekRet < 0 ==> logicalPos == old(logicalPos) && logicalSize == old(logicalSize) && !isStreamed &&
                                   strayed == old(strayed)
        invariant seekRet >= 0 ==> to >= 0 && seekRet == logicalPos == to + (strayed - old(strayed))
        invariant old(Unattended()) && to < 0 ==> !isHandled && injects == old(injects)[1..]
        invariant Left(old(injects), injects) && (old(Served()) && to >= 0 ==> seekRet >= 0)
        decreases seekRet < 0, |injects|
      {
        if seekRet == Source.AVERROR_EXIT || seekRet == Source.AVERROR_EOF {
          return;
        }
        LeftOn(old(injects), injects);
        ghost var asked := injects;
        ret, tried, seekRet := Attempt(offset, whence, false);
        LastOn(old(injects), asked, injects);
        if !tried {
          return;
        }
      }
      if testFailPoint != 0 {
        testFailPointNext := logicalPos + testFailPoint;
      }
      ioError := 0;
      ret := logicalPos;
    }

    /** Any reads and seeks on an opened stream, through any failures. */
    method Session(calls: seq<Call>) returns (events: seq<Event>, ghost at: seq<int>, ghost sizes: seq<int>)
      requires Valid()
      modifies this, inner
      ensures Valid()
      ensures KeptHonest(old(honest), old(strayed), old(opens))
      ensures honest ==> IsSession(data, calls, events, at, sizes) && at[0] == old(logicalPos) && at[|calls|] == logicalPos
    {
      events, at, sizes := [], [logicalPos], [];
      for i := 0 to |calls|
        invariant Valid() && (inner == old(inner) || fresh(inner))
        invariant KeptHonest(old(honest), old(strayed), old(opens))
        invariant |at| == i + 1 && at[0] == old(logicalPos) && at[i] == logicalPos
        invariant honest ==> IsSession(data, calls[..i], events, at, sizes)
      {
        ghost var pos, size := logicalPos, logicalSize;
        var ev;
        match calls[i] {
          case DoRead(len) =>
            var ret, bytes := Read(len);
            ev := DidRead(ret, bytes);
          case DoSeek(offset, whence) =>
            var ret := Seek(offset, whence);
            ev := DidSeek(ret);
        }
        if honest {
          assert Answered(data, pos, size, calls[i], ev, logicalPos);
          SessionExtend(data, calls[..i], events, at, sizes, calls[i], ev, size, logicalPos);
          assert calls[..i] + [calls[i]] == calls[..i + 1];
        }
        events, at, sizes := events + [ev], at + [logicalPos], sizes + [size];
      }
      assert calls[..|calls|] == calls;
    }
  }

  lemma SessionExtend(data: seq<byte>, calls: seq<Call>, events: seq<Event>, at: seq<int>, sizes: seq<int>,
                      call: Call, ev: Event, size: int, pos: int)
    requires IsSession(data, calls, events, at, sizes) && Answered(data, at[|calls|], size, call, ev, pos)
    ensures IsSession(data, calls + [call], events + [ev], at + [pos], sizes + [size])
  {
    hide Answered;
  }

  /** A seek that fails and that the application does not handle returns 0, while
      the stream stays where it is. */
  method SeekMayReturnZero() returns (ret: int, pos: int)
    ensures ret == 0 && pos == 5
  {
    var go := InjectReply(false, 0, "", false, false, false);
    var hook := new HttpHook(seq(10, _ => 0), 0, false, 0, "http:x", [go, go], []);
    hook.inner := new Connection(hook.data, 5, false, 10, []);
    hook.isStreamed, hook.logicalPos, hook.logicalSize := false, 5, 10;
    ret := hook.Seek(-1, Set);
    pos := hook.logicalPos;
  }
}
