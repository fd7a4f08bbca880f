/** The requests of ijkplayer.c: they travel through the message queue, and newer
    ones replace older ones. */
module Player {
  import opened MessageQueues

  const EIJK_INVALID_STATE := -3

  datatype MpState =
    | IDLE | INITIALIZED | ASYNC_PREPARING | PREPARED | STARTED | PAUSED | COMPLETED | STOPPED | ERROR | END

  /** ikjmp_chkst_start_l and its twins for pause and seek. */
  predicate CanRun(s: MpState) {
    s.PREPARED? || s.STARTED? || s.PAUSED? || s.COMPLETED?
  }

  /** What the player is told to do: ffp_start_l, ffp_start_from_l, ffp_pause_l, ffp_seek_to_l. */
  datatype Order = ToStart | ToStartFrom(msec: int) | ToPause | ToSeek(msec: int)

  /** The fields of the player that messages change, and what it was told so far. */
  datatype Status = Status(state: MpState, restart: bool, fromBeginning: bool, seekReq: bool, seekMsec: int, orders: seq<Order>)
  {
    function Told(order: Order, ready: bool): Status {
      if ready then this.(orders := orders + [order]) else this
    }
  }

  /** What ijkmp_get_msg does with a message; `ready` says that the player has a
      stream, without which the ffp_ calls fail. */
  function Handled(s: Status, m: Message, ready: bool, startOnPrepared: bool): Status {
    if m.what == FFP_MSG_PREPARED then
      s.(state := if !startOnPrepared then PAUSED else if s.state.ASYNC_PREPARING? then PREPARED else s.state)
    else if m.what == FFP_MSG_COMPLETED then s.(restart := true, fromBeginning := true, state := COMPLETED)
    else if m.what == FFP_MSG_SEEK_COMPLETE then s.(seekReq := false, seekMsec := 0)
    else if m.what == FFP_REQ_START && CanRun(s.state) then
      s.Told(if s.restart && s.fromBeginning then ToStartFrom(0) else ToStart, ready)
       .(state := if ready then STARTED else s.state, restart := false, fromBeginning := s.fromBeginning && !s.restart)
    else if m.what == FFP_REQ_PAUSE && CanRun(s.state) then s.Told(ToPause, ready).(state := if ready then PAUSED else s.state)
    else if m.what == FFP_REQ_SEEK && CanRun(s.state) then s.Told(ToSeek(m.arg1), ready).(fromBeginning := false)
    else s
  }

  function HandledAll(s: Status, msgs: seq<Message>, ready: bool, startOnPrepared: bool): Status {
    if msgs == [] then s
    else Handled(HandledAll(s, msgs[..|msgs| - 1], ready, startOnPrepared), msgs[|msgs| - 1], ready, startOnPrepared)
  }

  lemma HandledSnoc(s: Status, msgs: seq<Message>, m: Message, ready: bool, startOnPrepared: bool)
    ensures HandledAll(s, msgs + [m], ready, startOnPrepared) ==
            Handled(HandledAll(s, msgs, ready, startOnPrepared), m, ready, startOnPrepared)
  {
    assert (msgs + [m])[..|msgs|] == msgs;
  }

  lemma Regroup(a: seq<Message>, m: Message, b: seq<Message>)
    ensures a + ([m] + b) == (a + [m]) + b
  {
  }

  predicate IsRequest(what: int) {
    what == FFP_REQ_START || what == FFP_REQ_PAUSE || what == FFP_REQ_SEEK
  }

  /** Requests do not touch a player that is not prepared, and leave a prepared
      one prepared; only SEEK_COMPLETE ends the seek the user sees. */
  lemma {:induction false} RequestsKeepRunnable(s: Status, msgs: seq<Message>, ready: bool, startOnPrepared: bool)
    requires forall i :: 0 <= i < |msgs| ==> IsRequest(msgs[i].what)
    ensures var s' := HandledAll(s, msgs, ready, startOnPrepared);
      && CanRun(s'.state) == CanRun(s.state)
      && (!CanRun(s.state) ==> s' == s)
      && s'.seekReq == s.seekReq && s'.seekMsec == s.seekMsec
    decreases |msgs|
  {
    if msgs != [] {
      RequestsKeepRunnable(s, msgs[..|msgs| - 1], ready, startOnPrepared);
    }
  }

  /** A message that makes a player runnable which is not. */
  predicate Prepares(state: MpState, what: int, startOnPrepared: bool) {
    what == FFP_MSG_COMPLETED || (what == FFP_MSG_PREPARED && (state.ASYNC_PREPARING? || !startOnPrepared))
  }

  /** Whatever messages are handled, a runnable player stays runnable, and another
      one becomes runnable exactly by one of the messages that prepare it; until
      then its state stays as it was. */
  lemma {:induction false} RunnableExactly(s: Status, msgs: seq<Message>, ready: bool, startOnPrepared: bool)
    ensures var s' := HandledAll(s, msgs, ready, startOnPrepared);
      && (CanRun(s'.state) <==> CanRun(s.state) || exists i :: 0 <= i < |msgs| && Prepares(s.state, msgs[i].what, startOnPrepared))
      && (!CanRun(s'.state) ==> s'.state == s.state)
    decreases |msgs|
  {
    if msgs != [] {
      var k := |msgs| - 1;
      RunnableExactly(s, msgs[..k], ready, startOnPrepared);
      var before := HandledAll(s, msgs[..k], ready, startOnPrepared);
      assert CanRun(Handled(before, msgs[k], ready, startOnPrepared).state) <==>
             CanRun(before.state) || Prepares(before.state, msgs[k].what, startOnPrepared);
      if CanRun(before.state) && !CanRun(s.state) {
        var i :| 0 <= i < k && Prepares(s.state, msgs[..k][i].what, startOnPrepared);
        assert Prepares(s.state, msgs[i].what, startOnPrepared);
      }
      if i :| 0 <= i < |msgs| && Prepares(s.state, msgs[i].what, startOnPrepared) {
        if i < k {
          assert Prepares(s.state, msgs[..k][i].what, startOnPrepared);
        }
      }
    }
  }

  /** ijkmp_get_current_position: what the user sees while the player is at `playing`. */
  function Shown(s: Status, playing: int): int {
    if s.seekReq then s.seekMsec else playing
  }

  predicate SeekCompletes(msgs: seq<Message>) {
    exists i :: 0 <= i < |msgs| && msgs[i].what == FFP_MSG_SEEK_COMPLETE
  }

  lemma HandledSeek(s: Status, m: Message, ready: bool, startOnPrepared: bool)
    ensures var s' := Handled(s, m, ready, startOnPrepared);
      if m.what == FFP_MSG_SEEK_COMPLETE then !s'.seekReq else s'.seekReq == s.seekReq && s'.seekMsec == s.seekMsec
  {
  }

  /** After a seek the user sees its target, whatever is handled, up to the message
      that a seek is complete; from then on the user sees where the player is. */
  lemma {:induction false} SeekIsShown(s: Status, msec: int, msgs: seq<Message>, ready: bool, startOnPrepared: bool, playing: int)
    ensures var s' := HandledAll(s.(seekReq := true, seekMsec := msec), msgs, ready, startOnPrepared);
      && Shown(s', playing) == (if SeekCompletes(msgs) then playing else msec) && s'.seekReq == !SeekCompletes(msgs)
      && (s'.seekReq ==> s'.seekMsec == msec)
    decreases |msgs|
  {
    hide Handled;
    if msgs != [] {
      var k := |msgs| - 1;
      SeekIsShown(s, msec, msgs[..k], ready, startOnPrepared, playing);
      HandledSeek(HandledAll(s.(seekReq := true, seekMsec := msec), msgs[..k], ready, startOnPrepared), msgs[k], ready, startOnPrepared);
      CompletesSnoc(msgs, k);
      hide SeekCompletes;
    }
  }

  lemma CompletesSnoc(msgs: seq<Message>, k: nat)
    requires k < |msgs|
    ensures SeekCompletes(msgs[..k + 1]) <==> SeekCompletes(msgs[..k]) || msgs[k].what == FFP_MSG_SEEK_COMPLETE
    ensures msgs[..|msgs|] == msgs
  {
    if SeekCompletes(msgs[..k]) {
      var i :| 0 <= i < k && msgs[..k][i].what == FFP_MSG_SEEK_COMPLETE;
      assert msgs[..k + 1][i].what == FFP_MSG_SEEK_COMPLETE;
    }
    var longer := msgs[..k + 1];
    if i :| 0 <= i < |longer| && longer[i].what == FFP_MSG_SEEK_COMPLETE {
      if i < k {
        assert msgs[..k][i].what == FFP_MSG_SEEK_COMPLETE;
      }
    }
    if msgs[k].what == FFP_MSG_SEEK_COMPLETE {
      assert longer[k].what == FFP_MSG_SEEK_COMPLETE;
    }
  }

  // ----- what becomes of a request -----

  /** Messages that leave the state of a player alone that is started, paused or completed. */
  predicate Settles(what: int) {
    what == FFP_REQ_START || what == FFP_REQ_PAUSE || what == FFP_MSG_PREPARED || what == FFP_MSG_COMPLETED
  }

  ghost predicate NothingSettles(msgs: seq<Message>, from: nat) {
    forall k :: from <= k < |msgs| ==> !Settles(msgs[k].what)
  }

  lemma {:induction false} StateKept(s: Status, msgs: seq<Message>, i: nat, ready: bool, startOnPrepared: bool)
    requires i <= |msgs| && NothingSettles(msgs, i)
    ensures HandledAll(s, msgs, ready, startOnPrepared).state == HandledAll(s, msgs[..i], ready, startOnPrepared).state
    decreases |msgs|
  {
    if i == |msgs| {
      assert msgs[..i] == msgs;
    } else {
      var k := |msgs| - 1;
      StateKept(s, msgs[..k], i, ready, startOnPrepared);
      assert msgs[..k][..i] == msgs[..i] && !Settles(msgs[k].what);
    }
  }

  /** The last request or message that concerns the state decides it: a player that
      is ready plays after a start, rests after a pause, and is at the end after a
      completion; a player that is not runnable keeps its state over both requests. */
  lemma LastOneDecides(s: Status, msgs: seq<Message>, i: nat, ready: bool, startOnPrepared: bool)
    requires i < |msgs| && NothingSettles(msgs, i + 1)
    ensures var before, after := HandledAll(s, msgs[..i], ready, startOnPrepared).state, HandledAll(s, msgs, ready, startOnPrepared).state;
      && (msgs[i].what == FFP_REQ_START ==> after == if CanRun(before) && ready then STARTED else before)
      && (msgs[i].what == FFP_REQ_PAUSE ==> after == if CanRun(before) && ready then PAUSED else before)
      && (msgs[i].what == FFP_MSG_COMPLETED ==> after == COMPLETED)
      && (msgs[i].what == FFP_MSG_PREPARED && !startOnPrepared ==> after == PAUSED)
      && (msgs[i].what == FFP_MSG_PREPARED && startOnPrepared ==> after == if before.ASYNC_PREPARING? then PREPARED else before)
  {
    StateKept(s, msgs, i + 1, ready, startOnPrepared);
    assert msgs[..i + 1][..i] == msgs[..i];
  }

  /** The playback completed, and neither a start nor a seek came since. */
  ghost predicate AtTheEnd(msgs: seq<Message>, seekToo: bool) {
    exists j :: 0 <= j < |msgs| && EndedAt(msgs, j, seekToo)
  }

  ghost predicate EndedAt(msgs: seq<Message>, j: nat, seekToo: bool)
    requires j < |msgs|
  {
    && msgs[j].what == FFP_MSG_COMPLETED
    && forall k :: j < k < |msgs| ==> msgs[k].what != FFP_REQ_START && (seekToo ==> msgs[k].what != FFP_REQ_SEEK)
  }

  lemma AtTheEndSnoc(msgs: seq<Message>, seekToo: bool)
    requires msgs != []
    ensures var m := msgs[|msgs| - 1].what;
      AtTheEnd(msgs, seekToo) <==>
        m == FFP_MSG_COMPLETED || (AtTheEnd(msgs[..|msgs| - 1], seekToo) && m != FFP_REQ_START && (seekToo ==> m != FFP_REQ_SEEK))
  {
    var n := |msgs| - 1;
    if j :| 0 <= j <= n && EndedAt(msgs, j, seekToo) {
      if j < n {
        assert EndedAt(msgs[..n], j, seekToo);
      }
    }
    if msgs[n].what == FFP_MSG_COMPLETED {
      assert EndedAt(msgs, n, seekToo);
    }
    if j :| 0 <= j < n && EndedAt(msgs[..n], j, seekToo) {
      if msgs[n].what != FFP_REQ_START && (seekToo ==> msgs[n].what != FFP_REQ_SEEK) {
        assert forall k :: j < k < n ==> msgs[k] == msgs[..n][k];
        assert EndedAt(msgs, j, seekToo);
      }
    }
  }

  lemma {:induction false} RestartFlags(s: Status, msgs: seq<Message>, ready: bool, startOnPrepared: bool)
    requires !s.restart && !s.fromBeginning
    ensures var s' := HandledAll(s, msgs, ready, startOnPrepared);
      && (s'.restart <==> AtTheEnd(msgs, false)) && (s'.fromBeginning <==> AtTheEnd(msgs, true))
      && (s'.restart ==> CanRun(s'.state)) && (s'.fromBeginning ==> s'.restart)
    decreases |msgs|
  {
    hide AtTheEnd;
    if msgs == [] {
      NeverEnded();
    } else {
      RestartFlags(s, msgs[..|msgs| - 1], ready, startOnPrepared);
      AtTheEndSnoc(msgs, false);
      AtTheEndSnoc(msgs, true);
    }
  }

  lemma NeverEnded()
    ensures !AtTheEnd([], false) && !AtTheEnd([], true)
  {
  }

  /** What a start that is carried out tells the player: to play from the beginning
      exactly if the playback completed and neither a start nor a seek came since. */
  lemma StartsFromTheBeginning(s: Status, msgs: seq<Message>, start: Message, ready: bool, startOnPrepared: bool)
    requires !s.restart && !s.fromBeginning && start.what == FFP_REQ_START
    ensures var before, after := HandledAll(s, msgs, ready, startOnPrepared), HandledAll(s, msgs + [start], ready, startOnPrepared);
      after.orders ==
        if !CanRun(before.state) || !ready then before.orders
        else before.orders + [if AtTheEnd(msgs, true) then ToStartFrom(0) else ToStart]
  {
    hide AtTheEnd, HandledAll;
    RestartFlags(s, msgs, ready, startOnPrepared);
    HandledSnoc(s, msgs, start, ready, startOnPrepared);
  }

  /** The requests among the messages. */
  function Requests(msgs: seq<Message>): seq<Message> {
    if msgs == [] then []
    else Requests(msgs[..|msgs| - 1]) + if IsRequest(msgs[|msgs| - 1].what) then [msgs[|msgs| - 1]] else []
  }

  predicate Carries(order: Order, m: Message) {
    match order
    case ToStart => m.what == FFP_REQ_START
    case ToStartFrom(msec) => m.what == FFP_REQ_START && msec == 0
    case ToPause => m.what == FFP_REQ_PAUSE
    case ToSeek(msec) => m.what == FFP_REQ_SEEK && msec == m.arg1
  }

  /** A runnable player that is ready is told what the requests ask for, one by one
      and in order. One without a stream is told nothing. */
  lemma {:induction false} RequestsAreCarriedOut(s: Status, msgs: seq<Message>, ready: bool, startOnPrepared: bool) returns (orders: seq<Order>)
    requires CanRun(s.state)
    ensures HandledAll(s, msgs, ready, startOnPrepared).orders == s.orders + orders
    ensures if ready then |orders| == |Requests(msgs)| && forall i :: 0 <= i < |orders| ==> Carries(orders[i], Requests(msgs)[i])
            else orders == []
    decreases |msgs|
  {
    orders := [];
    if msgs != [] {
      var k := |msgs| - 1;
      orders := RequestsAreCarriedOut(s, msgs[..k], ready, startOnPrepared);
      RunnableExactly(s, msgs[..k], ready, startOnPrepared);
      var more := OneRequest(HandledAll(s, msgs[..k], ready, startOnPrepared), msgs[k], ready, startOnPrepared);
      hide Handled, Carries, CanRun, IsRequest;
      orders := orders + more;
    }
  }

  lemma OneRequest(s: Status, m: Message, ready: bool, startOnPrepared: bool) returns (more: seq<Order>)
    requires CanRun(s.state)
    ensures Handled(s, m, ready, startOnPrepared).orders == s.orders + more
    ensures if ready && IsRequest(m.what) then |more| == 1 && Carries(more[0], m) else more == []
  {
    more := Handled(s, m, ready, startOnPrepared).orders[|s.orders|..];
  }

  class MediaPlayer {
    const queue: MessageQueue
    const startOnPrepared: bool
    var status: Status
    var ready: bool

    constructor (queue: MessageQueue, startOnPrepared: bool)
      ensures this.queue == queue && status == Status(IDLE, false, false, false, 0, []) && !ready
    {
      this.queue, this.startOnPrepared := queue, startOnPrepared;
      status, ready := Status(IDLE, false, false, false, 0, []), false;
    }

    /** What the queue holds after older requests were replaced by `request`. */
    static function Replaced(msgs: seq<Message>, request: Message): seq<Message> {
      (if request.what == FFP_REQ_SEEK then Without(msgs, FFP_REQ_SEEK)
       else Without(Without(msgs, FFP_REQ_START), FFP_REQ_PAUSE)) + [request]
    }

    /** ijkmp_start_l and ijkmp_pause_l. */
    method StartOrPause(start: bool) returns (ret: int)
      requires queue.Valid()
      modifies queue.list, queue.list.repr
      ensures queue.Valid()
      ensures ret == if CanRun(status.state) then 0 else EIJK_INVALID_STATE
      ensures queue.Items() == if ret < 0 || queue.abortRequest then old(queue.Items())
                               else Replaced(old(queue.Items()), Message(if start then FFP_REQ_START else FFP_REQ_PAUSE, 0, 0))
    {
      if !CanRun(status.state) { return EIJK_INVALID_STATE; }
      queue.Remove(FFP_REQ_START);
      queue.Remove(FFP_REQ_PAUSE);
      var _ := queue.Put(Message(if start then FFP_REQ_START else FFP_REQ_PAUSE, 0, 0));
      ret := 0;
    }

    /** ijkmp_seek_to_l. */
    method SeekTo(msec: int) returns (ret: int)
      requires queue.Valid()
      modifies this`status, queue.list, queue.list.repr
      ensures queue.Valid()
      ensures ret == if CanRun(old(status.state)) then 0 else EIJK_INVALID_STATE
      ensures status == if ret < 0 then old(status) else old(status).(seekReq := true, seekMsec := msec)
      ensures queue.Items() == if ret < 0 || queue.abortRequest then old(queue.Items())
                               else Replaced(old(queue.Items()), Message(FFP_REQ_SEEK, msec, 0))
    {
      if !CanRun(status.state) { return EIJK_INVALID_STATE; }
      status := status.(seekReq := true, seekMsec := msec);
      queue.Remove(FFP_REQ_SEEK);
      var _ := queue.Put(Message(FFP_REQ_SEEK, msec, 0));
      ret := 0;
    }

    /** The switch of ijkmp_get_msg. */
    method Handle(msg: Message) returns (request: bool)
      modifies this`status
      ensures status == Handled(old(status), msg, ready, startOnPrepared) && request == IsRequest(msg.what)
    {
      var what := msg.what;
      request := false;
      if what == FFP_MSG_PREPARED {
        if status.state.ASYNC_PREPARING? { status := status.(state := PREPARED); }
        if !startOnPrepared { status := status.(state := PAUSED); }
      } else if what == FFP_MSG_COMPLETED {
        status := status.(restart := true, fromBeginning := true, state := COMPLETED);
      } else if what == FFP_MSG_SEEK_COMPLETE {
        status := status.(seekReq := false, seekMsec := 0);
      } else if what == FFP_REQ_START {
        request := true;
        if CanRun(status.state) {
          if status.restart {
            status := status.Told(if status.fromBeginning then ToStartFrom(0) else ToStart, ready);
            if ready { status := status.(state := STARTED); }
            status := status.(restart := false, fromBeginning := false);
          } else {
            status := status.Told(ToStart, ready);
            if ready { status := status.(state := STARTED); }
          }
        }
      } else if what == FFP_REQ_PAUSE {
        request := true;
        if CanRun(status.state) {
          status := status.Told(ToPause, ready);
          if ready { status := status.(state := PAUSED); }
        }
      } else if what == FFP_REQ_SEEK {
        request := true;
        if CanRun(status.state) {
          status := status.(fromBeginning := false);
          status := status.Told(ToSeek(msg.arg1), ready);
        }
      }
    }

    /** One turn of the loop of ijkmp_get_msg. */
    method TakeMsg() returns (ret: int, msg: Message, request: bool)
      requires queue.Valid()
      modifies this`status, queue.list, queue.list.repr
      ensures queue.Valid() && ret <= 1 && queue.list.repr == old(queue.list.repr)
      ensures ret < 0 <==> queue.abortRequest
      ensures ret == 0 ==> queue.Items() == []
      ensures if ret == 1 then old(queue.Items()) == [msg] + queue.Items() && request == IsRequest(msg.what) &&
                               status == Handled(old(status), msg, ready, startOnPrepared)
              else queue.Items() == old(queue.Items()) && status == old(status) && !request
    {
      hide Handled, IsRequest;
      request := false;
      ret, msg := queue.Get();
      if ret > 0 {
        request := Handle(msg);
      }
    }

    /** ijkmp_get_msg: requests are carried out in order and kept from the caller;
        the first other message is returned. 0 means that the queue is empty. */
    method GetMsg() returns (ret: int, msg: Message, ghost taken: seq<Message>)
      requires queue.Valid()
      modifies this`status, queue.list, queue.list.repr
      ensures queue.Valid() && ret <= 1
      ensures old(queue.Items()) == taken + queue.Items()
      ensures ret < 0 <==> queue.abortRequest
      ensures ret == 0 ==> queue.Items() == []
      ensures ret == 1 ==> taken != [] && msg == taken[|taken| - 1] && !IsRequest(msg.what)
      ensures forall i :: 0 <= i < |taken| - (if ret == 1 then 1 else 0) ==> IsRequest(taken[i].what)
      ensures status == HandledAll(old(status), taken, ready, startOnPrepared)
    {
      taken := [];
      ret, msg := 1, Message(0, 0, 0);
      ghost var before := status;
      while true
        invariant queue.Valid() && old(queue.Items()) == taken + queue.Items()
        invariant forall i :: 0 <= i < |taken| ==> IsRequest(taken[i].what)
        invariant status == HandledAll(before, taken, ready, startOnPrepared)
        invariant queue.list.repr == old(queue.list.repr)
        decreases |queue.Items()|
      {
        hide Handled, HandledAll, IsRequest;
        var request;
        ret, msg, request := TakeMsg();
        if ret <= 0 { break; }
        HandledSnoc(before, taken, msg, ready, startOnPrepared);
        Regroup(taken, msg, queue.Items());
        taken := taken + [msg];
        if !request { break; }
      }
    }
  }
}
