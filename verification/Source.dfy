/** The environment: an inner URL as a byte sequence with a position. */
module Source {
  import opened Common

  const AVERROR_EOF := -541478725
  const AVERROR_EXIT := -1414092869
  const AVERROR_EINVAL := -22

  /** What the environment decides about one operation: deliver at most `n`
      bytes, or fail with a negative code. */
  datatype Reply = Deliver(n: nat) | Fail(code: int)

  datatype Whence = Set | Cur | Size | Other

  /** What a seek returns at position `cur` of a source of the given size. */
  function SeekResult(cur: nat, whence: Whence, pos: int, size: int): int {
    match whence
    case Size => size
    case Other => AVERROR_EINVAL
    case Set => if pos < 0 then AVERROR_EINVAL else pos
    case Cur => if cur + pos < 0 then AVERROR_EINVAL else cur + pos
  }

  /** An absolute seek reaches its target from anywhere, and a relative one is the
      absolute one from the position; a target before the front and an unknown kind
      are refused; the size is told and does not depend on the position. */
  lemma SeekLaws(cur: nat, other: nat, pos: int, size: int)
    ensures SeekResult(cur, Set, pos, size) == SeekResult(other, Set, pos, size) && (pos >= 0 ==> SeekResult(cur, Set, pos, size) == pos)
    ensures SeekResult(cur, Cur, 0, size) == cur && SeekResult(cur, Cur, pos, size) == SeekResult(other, Set, cur + pos, size)
    ensures pos < 0 ==> SeekResult(cur, Set, pos, size) == AVERROR_EINVAL
    ensures SeekResult(cur, Other, pos, size) == AVERROR_EINVAL && SeekResult(cur, Size, pos, size) == SeekResult(other, Size, 0, size) == size
  {
  }

  /** What opening the inner URL and asking for its size gives. */
  datatype OpenReply = OpenReply(code: int, size: int)

  /** The next reply. An inner URL fails with a negative code other than AVERROR_EOF. */
  function NextOf(replies: seq<Reply>): Reply {
    if replies == [] then Fail(AVERROR_EXIT)
    else if replies[0].Fail? && (replies[0].code >= 0 || replies[0].code == AVERROR_EOF) then Fail(-5)
    else replies[0]
  }

  function RestOf(replies: seq<Reply>): seq<Reply> {
    if replies == [] then [] else replies[1..]
  }

  /** An inner URL. It delivers the bytes at its position, possibly fewer than
      asked for, and leaves the position alone when it fails. It returns 0 and
      AVERROR_EOF only at the end. The replies are fixed in advance and
      arbitrary; an exhausted list behaves like a source that keeps failing. */
  class Url {
    const data: seq<byte>
    var pos: nat
    var replies: seq<Reply>
    var opens: seq<OpenReply>
    /** the codes with which operations failed so far */
    var faults: seq<int>
    /** the sizes that were claimed when it was opened */
    var claims: seq<int>

    constructor (data: seq<byte>, replies: seq<Reply>, opens: seq<OpenReply>)
      ensures this.data == data && pos == 0 && this.replies == replies && this.opens == opens && faults == [] && claims == []
    {
      this.data := data;
      pos := 0;
      this.replies, this.opens := replies, opens;
      faults, claims := [], [];
    }

    /** Opening the URL at last, and asking for its size. */
    method Open() returns (ret: int, size: int)
      modifies this`opens, this`faults, this`claims
      ensures claims == old(claims) + (if ret == 0 then [size] else [])
      ensures ret <= 0 && ret != AVERROR_EOF
      ensures faults == old(faults) + (if ret < 0 then [ret] else [])
      ensures old(opens) != [] && old(opens)[0].code == 0 ==> ret == 0 && size == old(opens)[0].size
      ensures opens == if old(opens) == [] then [] else old(opens)[1..]
    {
      ret, size := -5, 0;
      if opens != [] {
        if opens[0].code <= 0 && opens[0].code != AVERROR_EOF {
          ret, size := opens[0].code, opens[0].size;
        }
        opens := opens[1..];
      }
      if ret < 0 {
        faults := faults + [ret];
      } else {
        claims := claims + [size];
      }
    }

    method NextReply() returns (r: Reply)
      modifies this`replies, this`faults
      ensures r == NextOf(old(replies)) && replies == RestOf(old(replies))
      ensures faults == old(faults) + (if r.Fail? then [r.code] else [])
    {
      r, replies := NextOf(replies), RestOf(replies);
      if r.Fail? {
        faults := faults + [r.code];
      }
    }

    /** ffurl_read / url_read. */
    method Read(len: nat) returns (ret: int, bytes: seq<byte>)
      modifies this
      ensures ret <= len
      ensures if ret > 0 then |bytes| == ret && pos == old(pos) + ret else bytes == [] && pos == old(pos)
      ensures Matches(data, old(pos), bytes)
      ensures len > 0 && (ret == 0 || ret == AVERROR_EOF) ==> old(pos) >= |data|
      ensures match NextOf(old(replies))
        case Fail(code) => ret == code && faults == old(faults) + [code]
        case Deliver(n) =>
          && faults == old(faults)
          && (old(pos) < |data| ==> ret == Min(Min(Max(n, 1), len), |data| - old(pos)))
          && (old(pos) >= |data| ==> ret == 0 || ret == AVERROR_EOF)
      ensures replies == RestOf(old(replies)) && opens == old(opens) && claims == old(claims)
    {
      var r := NextReply();
      match r
      case Fail(code) =>
        ret, bytes := code, [];
      case Deliver(n) =>
        if pos >= |data| {
          ret, bytes := if n == 0 then 0 else AVERROR_EOF, [];
        } else {
          ret := Min(Min(Max(n, 1), len), |data| - pos);
          bytes := data[pos..pos + ret];
          pos := pos + ret;
        }
    }

    /** ffurl_seek / url_seek with SEEK_SET. */
    method Seek(target: nat) returns (ret: int)
      modifies this
      ensures if ret >= 0 then ret == target && pos == target else pos == old(pos) && ret != AVERROR_EOF
      ensures match NextOf(old(replies))
        case Fail(code) => ret == code < 0 && faults == old(faults) + [code]
        case Deliver(_) => ret == target && faults == old(faults)
      ensures replies == RestOf(old(replies)) && opens == old(opens) && claims == old(claims)
    {
      var r := NextReply();
      match r
      case Fail(code) => ret := code;
      case Deliver(_) => ret, pos := target, target;
    }
  }
}
